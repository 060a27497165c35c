# Article filter engine — a Dafny model

The article browser is a React page. It loads a list of news articles and three
lookup lists (tags, actors, locations). The user can then narrow the article list
by several criteria at once. This project models the logic behind that filtering
and proves properties of it:

- **Reference resolver** (`resolver.dfy`). The `forEach` loops turn each list of
  `{id, name}` records into an id-to-name map. The model is a method with a `while`
  loop. It is proved against `MapOf`, the map obtained by writing the records in
  order, so a later duplicate id overwrites an earlier one.
- **Criteria updates** (`handlers.dfy`). There are four handlers: set a text field,
  set the tri-state paywall, toggle a name in the tag or actor selection, and set
  one date bound. Each is a pure function from the old criteria to the new ones.
  Its contract gives the new value of its field and says that every other field
  is unchanged (`Records.SameExcept`).
- **Filter engine** (`filter_engine.dfy`). `Matches` is the per-article test.
  `FilteredData` is the stable `Array.filter` over the article list.

The data records are in `records.dfy`. The JavaScript built-ins the engine uses are
in `js_strings.dfy` (`toLowerCase`, `includes`, `join`) and `js_arrays.dfy`
(`filter`, `some`). Concrete cases are in `scenarios.dfy`.

Modelling decisions:
- **Date parsing.** `new Date(s)` is a function parameter `parse: string -> Option<int>`.
  `None` stands for an Invalid Date (NaN), and every `>=` or `<=` comparison with
  NaN is false. An empty bound string means the bound is not set. Any other bound
  string is parsed, so a bound that does not parse excludes every article.
- **Absent values.** An absent article text field reads as `""`.
- **Paywall.** An article's paywall is `Option<bool>`. `None` stands for any value
  that is not a boolean, and such a value never equals a boolean criterion.
- **Reference lists.** They are `IdList(ids)` or `NotAnArray`. A field that is not
  an array gives the empty searchable string.
- **Lower-casing** is ASCII only.
- **The substring quirk is kept.** The multi-select test looks for each selected
  name as a substring of the joined names. So selecting "Sport" also keeps an
  article tagged only "Sports" (`Scenarios.SubstringFalsePositive`). This is the
  source's behaviour, and the model keeps it.

## Model

| member | source | states |
|---|---|---|
| `Resolver.BuildMap` | src/App.jsx:41-44 | the map built by the `forEach` loop equals `MapOf` of the list; its keys are exactly the list's ids; each id maps to the name of the last record with that id |
| `Resolver.MapOfKeys` | src/App.jsx:42-44 | the key set of the built map is exactly the set of ids in the input |
| `Resolver.MapOfLastWins` | src/App.jsx:42-44 | last write wins: an id maps to the name of the last record carrying it |
| `Resolver.BuildRefMaps` | src/App.jsx:41-47 | the tag, actor and location maps are each built from their own list only |
| `Records.DefaultCriteria` | src/App.jsx:12-26 | the initial criteria: all text fields and both date bounds empty, paywall `null`, both selections empty |
| `Handlers.SetText` | src/App.jsx:51-57 | the named text field takes the input's value; every other field is unchanged |
| `Handlers.ParsePaywall` | src/App.jsx:63 | `""` gives `null`, `"true"` gives `true`, any other value gives `false` (each case both ways) |
| `Handlers.SetPaywall` | src/App.jsx:59-65 | the paywall becomes the parsed tri-state; every other field is unchanged |
| `Handlers.Toggle` | src/App.jsx:70-75 | an absent value is appended at the end; a present one is removed everywhere, the rest kept in order with unchanged counts |
| `Handlers.ToggleSelection` | src/App.jsx:67-78 | the named selection is toggled; every other field is unchanged |
| `Handlers.SetDate` | src/App.jsx:80-89 | the named bound takes the value; the other bound and every other field keep theirs |
| `Handlers.ToggleMembership` | src/App.jsx:70-75 | toggling flips the membership of the toggled value and of no other value |
| `Handlers.ToggleTwiceRestores` | src/App.jsx:70-75 | toggling an absent value twice gives back the original list |
| `Handlers.ToggleKeepsDistinct` | src/App.jsx:70-75 | a selection without duplicates stays without duplicates after a toggle |
| `FilterEngine.BoundOf` | src/App.jsx:93-94 | an empty bound string is no bound; any other is set to its parsed time, which may be invalid |
| `FilterEngine.FilteredData` | src/App.jsx:91-127 | the result is a subsequence of the input; it holds an article iff the input does and the article matches; each matching article is kept as often as it occurs |
| `FilterEngine.Matches` | src/App.jsx:116-126 | definition: the nine conjuncts of the `data.filter` callback in source order (date range, source name, paywall, headline, author, coverage level, actors, tags, location) |
| `FilterEngine.ArticleTime` | src/App.jsx:92 | definition: `new Date(item.publicationDate)` is the parsed time; an absent date is an Invalid Date |
| `FilterEngine.AtOrAfter` | src/App.jsx:97 | definition: `articleDate >= startDate`, false when either side is NaN |
| `FilterEngine.AtOrBefore` | src/App.jsx:98 | definition: `articleDate <= endDate`, false when either side is NaN |
| `FilterEngine.InDateRange` | src/App.jsx:96-98 | definition: an unset bound passes; a set bound must be met by the comparison |
| `FilterEngine.TextMatches` | src/App.jsx:118 | definition: an empty criterion passes; otherwise the lower-cased field includes the lower-cased criterion (also lines 120-122; an absent field reads as `""`, lines 100-104) |
| `FilterEngine.PaywallMatches` | src/App.jsx:119 | definition: a `null` criterion passes; otherwise the article's value must be exactly that boolean |
| `FilterEngine.ResolveLower` | src/App.jsx:107 | definition: the lower-cased name or `""` for an unresolved id |
| `FilterEngine.ResolvedNames` | src/App.jsx:106-112 | one lower-cased name per referenced id, as many as there are ids |
| `FilterEngine.JoinedNames` | src/App.jsx:106-112 | definition: the resolved names joined by `", "`; `""` when the field is not an array |
| `FilterEngine.NameFound` | src/App.jsx:123 | definition: the `some` callback, the lower-cased selected name is included in the joined string |
| `FilterEngine.SelectionMatches` | src/App.jsx:123-124 | definition: an empty selection passes; otherwise `some` selected name is found |
| `FilterEngine.LocationName` | src/App.jsx:114 | definition: the resolved, lower-cased location name, `""` when absent or unresolved |
| `FilterEngine.LocationMatches` | src/App.jsx:125 | definition: an empty criterion passes; otherwise the location name includes the lower-cased criterion |
| `JsArrays.Filter` | src/App.jsx:91 | `Array.prototype.filter`: never longer than its input |
| `JsArrays.Any` | src/App.jsx:123-124 | definition: `Array.prototype.some`, some element passes the callback |
| `JsStrings.Lower` | src/App.jsx:118-125 | `toLowerCase` on ASCII: same length and no upper-case letter left |
| `JsStrings.Includes` | src/App.jsx:118-125 | definition: `String.prototype.includes`, the pattern is a prefix of some suffix |
| `JsStrings.Join` | src/App.jsx:107 | definition: `Array.prototype.join`, the parts with the separator between consecutive ones |
| `FilterEngine.DefaultKeepsAll` | src/App.jsx:12-26 | with the initial criteria the result is the whole input, even articles with invalid dates |
| `FilterEngine.FilterAgainChangesNothing` | src/App.jsx:91 | filtering the result again with the same criteria returns it unchanged |
| `FilterEngine.SameVerdictsSameResult` | src/App.jsx:91 | two criteria that decide every article alike give the same result |
| `FilterEngine.WeakerKeepsMore` | src/App.jsx:91 | criteria that admit at least the same articles give a super-sequence of the result |
| `FilterEngine.EarlierStartKeepsMore` | src/App.jsx:92-98 | moving the start bound earlier or clearing it never removes an article |
| `FilterEngine.LaterEndKeepsMore` | src/App.jsx:92-98 | moving the end bound later or clearing it never removes an article |
| `FilterEngine.WiderRangeKeepsMore` | src/App.jsx:92-98 | widening both bounds at once never removes an article |
| `FilterEngine.InvalidBoundExcludesAll` | src/App.jsx:92-98 | a set bound that does not parse leaves the result empty |
| `FilterEngine.PaywallAlone` | src/App.jsx:119 | with only the paywall set, exactly the articles whose paywall is that boolean are kept; `""` keeps all |
| `FilterEngine.UrlIgnored` | src/App.jsx:116-126 | setting the `url` criterion never changes the result |
| `FilterEngine.SameHeadlineIgnoringCasePasses` | src/App.jsx:120 | an article whose headline equals the criterion up to case passes the headline criterion |
| `FilterEngine.SelectionIff` | src/App.jsx:123-124 | an empty selection passes; otherwise the test passes iff some selected name, lower-cased, occurs in the joined string |
| `FilterEngine.SelectionUnion` | src/App.jsx:123-124 | OR semantics: a union of two non-empty selections passes iff one of them does |
| `FilterEngine.TwoTagsEither` | src/App.jsx:124 | with tags A and B selected, an article passes iff it passes with A alone or with B alone |
| `FilterEngine.AnotherTagKeepsMore` | src/App.jsx:67-78 | with some tag already selected, toggling on another tag never removes an article |
| `FilterEngine.ReferencedNameSelected` | src/App.jsx:106-112 | an article that refers to an entity whose name is selected passes that selection |
| `FilterEngine.UnresolvedJoinsSeparators` | src/App.jsx:106-112 | unresolved ids contribute `""`, and a non-array field gives `""`, so the string holds only separator characters |
| `FilterEngine.UnresolvedMatchesNoName` | src/App.jsx:106-112 | such an article fails every non-empty selection of names that hold a non-separator character |
| `JsArrays.FilterIsSubsequence` | src/App.jsx:91 | `Array.filter` never adds, duplicates or reorders elements |
| `JsArrays.FilterCount` | src/App.jsx:91 | `Array.filter` keeps each passing value exactly as often as it occurs and drops every other value |
| `JsArrays.FilterWeaker` | src/App.jsx:91 | a test that accepts more keeps a super-sequence |
| `JsArrays.AnyIff` | src/App.jsx:123-124 | `some` holds iff some element passes |
| `JsStrings.IncludesIff` | src/App.jsx:118-125 | `includes` holds iff the pattern occurs at some index |
| `JsStrings.JoinIncludesPart` | src/App.jsx:107 | each part occurs in the `join` of the parts |
| `Scenarios.ResolverExamples` | src/App.jsx:42-44 | `[{1,"X"},{2,"Y"}]` gives `{1:"X",2:"Y"}`; `[{1,"X"},{1,"Z"}]` gives `{1:"Z"}` |
| `Scenarios.DateAndTagScenario` | src/App.jsx:96-98 | a January article tagged Politics is kept and a June one is dropped under a January-to-March range with Politics selected |
| `Scenarios.PaywallScenario` | src/App.jsx:119 | requiring a paywall keeps only the article whose paywall is `true` |
| `Scenarios.LocationScenario` | src/App.jsx:114 | "spring" matches an article located in "Springfield" |
| `Scenarios.SubstringFalsePositive` | src/App.jsx:124 | selecting "Sport" also keeps an article tagged only "Sports" |

## Left out

- Loading data with `fetch`, `Promise.all` and `useEffect` (src/App.jsx:28-40) is asynchronous network I/O. The model starts from the delivered lists.
- React state hooks and re-rendering (src/App.jsx:5-12) are not modelled. The criteria are a value passed in and returned.
- JSX rendering is not modelled. This includes the display fallbacks `actorsMap[id] || id`, `'N/A'` and the checkbox `checked` state (src/App.jsx:129-211).
- Real `Date` parsing and time zones are left out. Parsing is an arbitrary function parameter returning a time value or NaN.
- `toLowerCase` lowers ASCII letters only, and Unicode case mapping is not modelled.
- Identifiers are integers. JavaScript stores object keys as strings, so ids such as `1` and `"1"` would collide there; the model does not capture this.
- `FilterEngine.ArticleTime`: an article whose `publicationDate` is `null` is not distinguished from an absent one. JavaScript reads `new Date(null)` as time 0, but the model treats both as an Invalid Date.
- `Handlers.SetText`: `handleInputChange` writes whatever key the input names. The model admits only the text fields (the five inputs on the page and `url`). An input naming another key could change a field's type in JavaScript.
- Values of the wrong type are left out: a non-string headline or name, or a non-id element in a reference list. Calling `toLowerCase` on such a value throws in JavaScript.
- Idempotence in the sense of "same inputs, same output" is not stated as a lemma. It holds for every Dafny function by construction.
