/**
 * The filter engine: the per-article test and the stable filter over the
 * article list that the browser re-evaluates whenever the criteria change.
 */
module FilterEngine {
  import opened Wrappers
  import opened Records
  import opened JsStrings
  import JsArrays
  import Handlers

  /** Date-string parsing (`new Date(s)`): a time value, or `None` for an Invalid Date. */
  type Parse = string -> Option<int>

  /** A date bound: not set (the empty string), or set to a possibly invalid time. */
  datatype Bound = Unset | Set(time: Option<int>)

  /** `s ? new Date(s) : null`. */
  function BoundOf(s: string, parse: Parse): (b: Bound)
    ensures b.Unset? <==> s == ""
    ensures b.Set? ==> b.time == parse(s)
  {
    if s == "" then Unset else Set(parse(s))
  }

  /** `new Date(item.publicationDate)`; an absent date is an Invalid Date. */
  function ArticleTime(a: Article, parse: Parse): Option<int> {
    match a.publicationDate
    case None => None
    case Some(s) => parse(s)
  }

  /** `t >= b` on dates: false as soon as either side is NaN. */
  predicate AtOrAfter(t: Option<int>, b: Option<int>) {
    t.Some? && b.Some? && t.value >= b.value
  }

  /** `t <= b` on dates: false as soon as either side is NaN. */
  predicate AtOrBefore(t: Option<int>, b: Option<int>) {
    t.Some? && b.Some? && t.value <= b.value
  }

  predicate InDateRange(t: Option<int>, start: Bound, end: Bound) {
    (start.Unset? || AtOrAfter(t, start.time)) && (end.Unset? || AtOrBefore(t, end.time))
  }

  /** Case-insensitive substring test of one text criterion; "" constrains nothing. */
  predicate TextMatches(field: string, pattern: string) {
    pattern == "" || Includes(Lower(field), Lower(pattern))
  }

  /** `null` constrains nothing; otherwise the article's value must be that very boolean. */
  predicate PaywallMatches(value: Option<bool>, wanted: Option<bool>) {
    wanted == None || value == wanted
  }

  /** `m[id]?.toLowerCase() || ""`. */
  function ResolveLower(m: map<Id, string>, id: Id): string {
    if id in m then Lower(m[id]) else ""
  }

  /** The lower-cased names of the referenced entities, "" for each unresolved id. */
  function ResolvedNames(ids: seq<Id>, m: map<Id, string>): (r: seq<string>)
    ensures |r| == |ids|
  {
    seq(|ids|, i requires 0 <= i < |ids| => ResolveLower(m, ids[i]))
  }

  /** The searchable string of a reference list: resolved names joined by ", "; "" when not an array. */
  function JoinedNames(refs: Refs, m: map<Id, string>): string {
    match refs
    case NotAnArray => ""
    case IdList(ids) => Join(ResolvedNames(ids, m), ", ")
  }

  /** The callback of `selected.some(...)`: the lower-cased name occurs in `joined`. */
  function NameFound(joined: string): string -> bool {
    name => Includes(joined, Lower(name))
  }

  /** An empty selection constrains nothing; otherwise some selected name must occur. */
  predicate SelectionMatches(selected: seq<string>, joined: string) {
    |selected| == 0 || JsArrays.Any(NameFound(joined), selected)
  }

  /** The article's resolved, lower-cased location name, "" when absent or unresolved. */
  function LocationName(a: Article, m: map<Id, string>): string {
    match a.location
    case None => ""
    case Some(id) => ResolveLower(m, id)
  }

  predicate LocationMatches(name: string, pattern: string) {
    pattern == "" || Includes(name, Lower(pattern))
  }

  /** The callback of `data.filter`: an article passes when every criterion holds. */
  predicate Matches(a: Article, c: Criteria, maps: RefMaps, parse: Parse) {
    && InDateRange(ArticleTime(a, parse), BoundOf(c.publicationDate.startDate, parse), BoundOf(c.publicationDate.endDate, parse))
    && TextMatches(a.sourceName.GetOr(""), c.sourceName)
    && PaywallMatches(a.paywall, c.paywall)
    && TextMatches(a.headline.GetOr(""), c.headline)
    && TextMatches(a.author.GetOr(""), c.author)
    && TextMatches(a.coverageLevel.GetOr(""), c.coverageLevel)
    && SelectionMatches(c.actorsMentioned, JoinedNames(a.actorsMentioned, maps.actors))
    && SelectionMatches(c.tags, JoinedNames(a.tags, maps.tags))
    && LocationMatches(LocationName(a, maps.locations), c.location)
  }

  function Keep(c: Criteria, maps: RefMaps, parse: Parse): Article -> bool {
    a => Matches(a, c, maps, parse)
  }

  /**
   * `filteredData`: the matching articles, in their original order, each as
   * often as it occurs in the input.
   */
  function FilteredData(data: seq<Article>, c: Criteria, maps: RefMaps, parse: Parse): (r: seq<Article>)
    ensures JsArrays.IsSubsequence(r, data)
    ensures forall x :: x in r <==> x in data && Matches(x, c, maps, parse)
    ensures forall x :: multiset(r)[x] == if Matches(x, c, maps, parse) then multiset(data)[x] else 0
  {
    var keep := Keep(c, maps, parse);
    JsArrays.FilterIsSubsequence(keep, data);
    assert forall x :: multiset(JsArrays.Filter(keep, data))[x] == if keep(x) then multiset(data)[x] else 0 by {
      forall x ensures multiset(JsArrays.Filter(keep, data))[x] == if keep(x) then multiset(data)[x] else 0 {
        JsArrays.FilterCount(keep, data, x);
      }
    }
    assert forall x :: x in JsArrays.Filter(keep, data) <==> x in data && keep(x) by {
      forall x ensures x in JsArrays.Filter(keep, data) <==> x in data && keep(x) {
        JsArrays.FilterMembership(keep, data, x);
      }
    }
    JsArrays.Filter(keep, data)
  }

  /** With the initial criteria every article is kept, even one with an invalid date. */
  lemma DefaultKeepsAll(data: seq<Article>, maps: RefMaps, parse: Parse)
    ensures FilteredData(data, DefaultCriteria(), maps, parse) == data
  {
    JsArrays.FilterKeepsAll(Keep(DefaultCriteria(), maps, parse), data);
  }

  /** Filtering the result again with the same criteria changes nothing. */
  lemma FilterAgainChangesNothing(data: seq<Article>, c: Criteria, maps: RefMaps, parse: Parse)
    ensures FilteredData(FilteredData(data, c, maps, parse), c, maps, parse) == FilteredData(data, c, maps, parse)
  {
    JsArrays.FilterIdempotent(Keep(c, maps, parse), data);
  }

  /** Two criteria that every article of `data` meets alike keep the same articles. */
  lemma SameVerdictsSameResult(data: seq<Article>, c: Criteria, d: Criteria, maps: RefMaps, parse: Parse)
    requires forall i :: 0 <= i < |data| ==> Matches(data[i], c, maps, parse) == Matches(data[i], d, maps, parse)
    ensures FilteredData(data, c, maps, parse) == FilteredData(data, d, maps, parse)
  {
    JsArrays.FilterSameTest(Keep(c, maps, parse), Keep(d, maps, parse), data);
  }

  /** Criteria under which every article meeting `c` also meets `d` keep a super-sequence. */
  lemma WeakerKeepsMore(data: seq<Article>, c: Criteria, d: Criteria, maps: RefMaps, parse: Parse)
    requires forall i :: 0 <= i < |data| && Matches(data[i], c, maps, parse) ==> Matches(data[i], d, maps, parse)
    ensures JsArrays.IsSubsequence(FilteredData(data, c, maps, parse), FilteredData(data, d, maps, parse))
    ensures multiset(FilteredData(data, c, maps, parse)) <= multiset(FilteredData(data, d, maps, parse))
  {
    JsArrays.FilterWeaker(Keep(c, maps, parse), Keep(d, maps, parse), data);
    JsArrays.SubsequenceMultiset(FilteredData(data, c, maps, parse), FilteredData(data, d, maps, parse));
  }

  /** The new start bound admits every time the old one admits: cleared, earlier, or the old one was invalid. */
  predicate StartNoLater(before: Bound, after: Bound) {
    after.Unset? || (before.Set? && (before.time.None? || (after.time.Some? && after.time.value <= before.time.value)))
  }

  /** The new end bound admits every time the old one admits: cleared, later, or the old one was invalid. */
  predicate EndNoEarlier(before: Bound, after: Bound) {
    after.Unset? || (before.Set? && (before.time.None? || (after.time.Some? && after.time.value >= before.time.value)))
  }

  /** Moving the start bound earlier (or clearing it) never removes an article. */
  lemma EarlierStartKeepsMore(data: seq<Article>, c: Criteria, s: string, maps: RefMaps, parse: Parse)
    requires StartNoLater(BoundOf(c.publicationDate.startDate, parse), BoundOf(s, parse))
    ensures var wider := Handlers.SetDate(c, StartDate, s);
      JsArrays.IsSubsequence(FilteredData(data, c, maps, parse), FilteredData(data, wider, maps, parse))
  {
    WeakerKeepsMore(data, c, Handlers.SetDate(c, StartDate, s), maps, parse);
  }

  /** Moving the end bound later (or clearing it) never removes an article. */
  lemma LaterEndKeepsMore(data: seq<Article>, c: Criteria, s: string, maps: RefMaps, parse: Parse)
    requires EndNoEarlier(BoundOf(c.publicationDate.endDate, parse), BoundOf(s, parse))
    ensures var wider := Handlers.SetDate(c, EndDate, s);
      JsArrays.IsSubsequence(FilteredData(data, c, maps, parse), FilteredData(data, wider, maps, parse))
  {
    WeakerKeepsMore(data, c, Handlers.SetDate(c, EndDate, s), maps, parse);
  }

  /** Widening both bounds at once never removes an article. */
  lemma WiderRangeKeepsMore(data: seq<Article>, c: Criteria, start: string, end: string, maps: RefMaps, parse: Parse)
    requires StartNoLater(BoundOf(c.publicationDate.startDate, parse), BoundOf(start, parse))
    requires EndNoEarlier(BoundOf(c.publicationDate.endDate, parse), BoundOf(end, parse))
    ensures var wider := Handlers.SetDate(Handlers.SetDate(c, StartDate, start), EndDate, end);
      JsArrays.IsSubsequence(FilteredData(data, c, maps, parse), FilteredData(data, wider, maps, parse))
  {
    var mid := Handlers.SetDate(c, StartDate, start);
    EarlierStartKeepsMore(data, c, start, maps, parse);
    LaterEndKeepsMore(data, mid, end, maps, parse);
    JsArrays.SubsequenceTransitive(FilteredData(data, c, maps, parse), FilteredData(data, mid, maps, parse),
      FilteredData(data, Handlers.SetDate(mid, EndDate, end), maps, parse));
  }

  /** A set bound that does not parse excludes every article. */
  lemma InvalidBoundExcludesAll(data: seq<Article>, c: Criteria, f: DateField, s: string, maps: RefMaps, parse: Parse)
    requires s != "" && parse(s) == None
    ensures FilteredData(data, Handlers.SetDate(c, f, s), maps, parse) == []
  {
    JsArrays.FilterDropsAll(Keep(Handlers.SetDate(c, f, s), maps, parse), data);
  }

  /** With only the paywall set, exactly the articles whose paywall is that boolean are kept. */
  lemma PaywallAlone(data: seq<Article>, value: string, maps: RefMaps, parse: Parse)
    ensures var r := FilteredData(data, Handlers.SetPaywall(DefaultCriteria(), value), maps, parse);
      && (value == "" ==> r == data)
      && (forall x :: x in r <==> x in data && (value == "" || x.paywall == Some(value == "true")))
  {
    if value == "" {
      assert Handlers.SetPaywall(DefaultCriteria(), value) == DefaultCriteria();
      DefaultKeepsAll(data, maps, parse);
    }
  }

  /** The criterion `url` is never read: setting it leaves the result unchanged. */
  lemma UrlIgnored(data: seq<Article>, c: Criteria, value: string, maps: RefMaps, parse: Parse)
    ensures FilteredData(data, Handlers.SetText(c, Url, value), maps, parse) == FilteredData(data, c, maps, parse)
  {
    SameVerdictsSameResult(data, Handlers.SetText(c, Url, value), c, maps, parse);
  }

  /** A headline equal to the headline criterion up to case passes that criterion alone. */
  lemma SameHeadlineIgnoringCasePasses(a: Article, h: string, maps: RefMaps, parse: Parse)
    requires Lower(a.headline.GetOr("")) == Lower(h)
    ensures Matches(a, Handlers.SetText(DefaultCriteria(), Headline, h), maps, parse)
  {
    var l := Lower(h);
    assert StartsWith(l, l);
  }

  /** `some` over the selection: an empty selection passes; otherwise some selected name must occur. */
  lemma SelectionIff(selected: seq<string>, joined: string)
    ensures SelectionMatches(selected, joined) <==>
      |selected| == 0 || exists k :: 0 <= k < |selected| && Includes(joined, Lower(selected[k]))
  {
    JsArrays.AnyIff(NameFound(joined), selected);
  }

  /** OR semantics: a combined selection passes exactly when one of its non-empty parts does. */
  lemma SelectionUnion(a: seq<string>, b: seq<string>, joined: string)
    requires |a| > 0 && |b| > 0
    ensures SelectionMatches(a + b, joined) <==> SelectionMatches(a, joined) || SelectionMatches(b, joined)
  {
    SelectionIff(a, joined);
    SelectionIff(b, joined);
    SelectionIff(a + b, joined);
    if SelectionMatches(a + b, joined) {
      var k :| 0 <= k < |a + b| && Includes(joined, Lower((a + b)[k]));
      if k >= |a| {
        assert (a + b)[k] == b[k - |a|];
      }
    }
    if SelectionMatches(a, joined) {
      var k :| 0 <= k < |a| && Includes(joined, Lower(a[k]));
      assert (a + b)[k] == a[k];
    }
    if SelectionMatches(b, joined) {
      var k :| 0 <= k < |b| && Includes(joined, Lower(b[k]));
      assert (a + b)[|a| + k] == b[k];
    }
  }

  /** An article referring to an entity whose name is selected passes that selection. */
  lemma ReferencedNameSelected(refs: Refs, m: map<Id, string>, selected: seq<string>, k: int)
    requires refs.IdList? && 0 <= k < |refs.ids|
    requires refs.ids[k] in m && m[refs.ids[k]] in selected
    ensures SelectionMatches(selected, JoinedNames(refs, m))
  {
    var names := ResolvedNames(refs.ids, m);
    JoinIncludesPart(names, ", ", k);
    var j :| 0 <= j < |selected| && selected[j] == m[refs.ids[k]];
    SelectionIff(selected, JoinedNames(refs, m));
  }

  /** A name holding some character other than ',' and ' '. */
  predicate HasNonSeparator(name: string) {
    exists k :: 0 <= k < |name| && name[k] != ',' && name[k] != ' '
  }

  /** References that resolve to nothing, or a non-array field, give a string of separators only. */
  lemma UnresolvedJoinsSeparators(refs: Refs, m: map<Id, string>)
    requires refs.IdList? ==> forall i :: 0 <= i < |refs.ids| ==> refs.ids[i] !in m
    ensures forall ch :: ch in JoinedNames(refs, m) ==> ch == ',' || ch == ' '
  {
    if refs.IdList? {
      JoinOfEmptyParts(ResolvedNames(refs.ids, m), ", ");
    }
  }

  /** A name with a non-separator character is not found in a string of separators. */
  lemma NameNotInSeparators(joined: string, name: string)
    requires forall ch :: ch in joined ==> ch == ',' || ch == ' '
    requires HasNonSeparator(name)
    ensures !Includes(joined, Lower(name))
  {
    var i :| 0 <= i < |name| && name[i] != ',' && name[i] != ' ';
    var l := Lower(name);
    assert l[i] == LowerChar(name[i]);
    if Includes(joined, l) {
      IncludesChars(joined, l, i);
    }
  }

  /** References that resolve to nothing (or a non-array field) match no selection of real names. */
  lemma UnresolvedMatchesNoName(refs: Refs, m: map<Id, string>, selected: seq<string>)
    requires refs.IdList? ==> forall i :: 0 <= i < |refs.ids| ==> refs.ids[i] !in m
    requires |selected| > 0 && forall k :: 0 <= k < |selected| ==> HasNonSeparator(selected[k])
    ensures !SelectionMatches(selected, JoinedNames(refs, m))
  {
    var joined := JoinedNames(refs, m);
    UnresolvedJoinsSeparators(refs, m);
    SelectionIff(selected, joined);
    forall k | 0 <= k < |selected| ensures !Includes(joined, Lower(selected[k])) {
      NameNotInSeparators(joined, selected[k]);
    }
  }

  /** With a non-empty tag selection, toggling on a further tag name never removes an article. */
  lemma AnotherTagKeepsMore(data: seq<Article>, c: Criteria, t: string, maps: RefMaps, parse: Parse)
    requires |c.tags| > 0 && t !in c.tags
    ensures var wider := Handlers.ToggleSelection(c, Tags, t);
      JsArrays.IsSubsequence(FilteredData(data, c, maps, parse), FilteredData(data, wider, maps, parse))
  {
    var d := Handlers.ToggleSelection(c, Tags, t);
    assert d.tags == c.tags + [t];
    forall i | 0 <= i < |data| && Matches(data[i], c, maps, parse) ensures Matches(data[i], d, maps, parse) {
      SelectionUnion(c.tags, [t], JoinedNames(data[i].tags, maps.tags));
    }
    WeakerKeepsMore(data, c, d, maps, parse);
  }

  /** Selecting two tag names keeps an article exactly when selecting either one of them alone would. */
  lemma TwoTagsEither(a: Article, c: Criteria, t1: string, t2: string, maps: RefMaps, parse: Parse)
    ensures Matches(a, c.(tags := [t1, t2]), maps, parse) <==>
      Matches(a, c.(tags := [t1]), maps, parse) || Matches(a, c.(tags := [t2]), maps, parse)
  {
    assert [t1, t2] == [t1] + [t2];
    SelectionUnion([t1], [t2], JoinedNames(a.tags, maps.tags));
  }
}
