/**
 * Concrete cases of the resolver and the filter engine, including the
 * substring false positive of the multi-select criteria.
 */
module Scenarios {
  import opened Wrappers
  import opened Records
  import opened JsStrings
  import Resolver
  import Handlers
  import opened FilterEngine

  /** Distinct identifiers each keep their name; a repeated identifier keeps the later name. */
  lemma ResolverExamples()
    ensures Resolver.MapOf([Entity(1, "X"), Entity(2, "Y")]) == map[1 := "X", 2 := "Y"]
    ensures Resolver.MapOf([Entity(1, "X"), Entity(1, "Z")]) == map[1 := "Z"]
  {
    var es := [Entity(1, "X"), Entity(2, "Y")];
    assert es[..1] == [Entity(1, "X")] && es[..1][..0] == [];
    var ds := [Entity(1, "X"), Entity(1, "Z")];
    assert ds[..1] == [Entity(1, "X")] && ds[..1][..0] == [];
  }

  /** An article with only the given headline, date, paywall and tag list. */
  function Sample(id: Id, headline: string, date: string, paywall: bool, tags: seq<Id>): Article {
    Article(id, Some(headline), None, Some(date), None, None, Some(paywall), None, NotAnArray, IdList(tags), None)
  }

  /** The range from January 1 to March 1, 2023 with the tag "Politics" selected. */
  function WinterPolitics(): Criteria {
    DefaultCriteria().(publicationDate := DateRange("2023-01-01", "2023-03-01"), tags := ["Politics"])
  }

  function SampleMaps(): RefMaps {
    RefMaps(map[1 := "Politics", 2 := "Sports"], map[], map[])
  }

  /** Two days in January and June, against a range from January 1 to March 1 and the tag "Politics". */
  lemma DateAndTagScenario(parse: Parse)
    requires parse("2023-01-10") == Some(19367) && parse("2023-06-01") == Some(19509)
    requires parse("2023-01-01") == Some(19358) && parse("2023-03-01") == Some(19417)
    ensures FilteredData([Sample(1, "A", "2023-01-10", true, [1]), Sample(2, "B", "2023-06-01", false, [2])],
                         WinterPolitics(), SampleMaps(), parse) == [Sample(1, "A", "2023-01-10", true, [1])]
  {
    var a1, a2 := Sample(1, "A", "2023-01-10", true, [1]), Sample(2, "B", "2023-06-01", false, [2]);
    var c, maps := WinterPolitics(), SampleMaps();
    JanuaryPoliticsPasses(parse);
    JuneFails(parse);
    var keep := Keep(c, maps, parse);
    assert [a1, a2][1..] == [a2];
    assert JsArrays.Filter(keep, [a2]) == [];
  }

  /** The January article tagged "Politics" meets both bounds and the tag. */
  lemma JanuaryPoliticsPasses(parse: Parse)
    requires parse("2023-01-10") == Some(19367)
    requires parse("2023-01-01") == Some(19358) && parse("2023-03-01") == Some(19417)
    ensures Matches(Sample(1, "A", "2023-01-10", true, [1]), WinterPolitics(), SampleMaps(), parse)
  {
    var a, c, maps := Sample(1, "A", "2023-01-10", true, [1]), WinterPolitics(), SampleMaps();
    ReferencedNameSelected(a.tags, maps.tags, c.tags, 0);
  }

  /** The June article lies after the end bound. */
  lemma JuneFails(parse: Parse)
    requires parse("2023-06-01") == Some(19509) && parse("2023-03-01") == Some(19417)
    ensures !Matches(Sample(2, "B", "2023-06-01", false, [2]), WinterPolitics(), SampleMaps(), parse)
  {
    var a, c := Sample(2, "B", "2023-06-01", false, [2]), WinterPolitics();
    assert ArticleTime(a, parse) == Some(19509);
    assert BoundOf(c.publicationDate.endDate, parse) == Set(Some(19417));
  }

  /** Requiring a paywall keeps only the article whose paywall is `true`. */
  lemma PaywallScenario(parse: Parse)
    ensures var a1, a2 := Sample(1, "A", "2023-01-10", true, [1]), Sample(2, "B", "2023-06-01", false, [2]);
      var maps := RefMaps(map[1 := "Politics", 2 := "Sports"], map[], map[]);
      FilteredData([a1, a2], Handlers.SetPaywall(DefaultCriteria(), "true"), maps, parse) == [a1]
  {
    var a1, a2 := Sample(1, "A", "2023-01-10", true, [1]), Sample(2, "B", "2023-06-01", false, [2]);
    var maps := RefMaps(map[1 := "Politics", 2 := "Sports"], map[], map[]);
    var c := Handlers.SetPaywall(DefaultCriteria(), "true");
    assert Matches(a1, c, maps, parse) && !Matches(a2, c, maps, parse);
    var keep := Keep(c, maps, parse);
    assert [a1, a2][1..] == [a2];
    assert JsArrays.Filter(keep, [a2]) == [];
  }

  /** "spring" is found in the lower-cased location name "springfield". */
  lemma LocationScenario(parse: Parse)
    ensures var a := Article(1, None, None, None, None, None, None, None, NotAnArray, NotAnArray, Some(5));
      Matches(a, Handlers.SetText(DefaultCriteria(), Location, "spring"), RefMaps(map[], map[], map[5 := "Springfield"]), parse)
  {
    var name := Lower("Springfield");
    assert name == "springfield";
    assert Lower("spring") == "spring";
    assert name[..6] == "spring";
  }

  /**
   * Selecting the tag "Sport" also keeps an article tagged only "Sports": the
   * selected name is searched as a substring of the joined names.
   */
  lemma SubstringFalsePositive(parse: Parse)
    ensures var a := Sample(1, "A", "2023-01-10", true, [1]);
      var maps := RefMaps(map[1 := "Sports", 2 := "Sport"], map[], map[]);
      && "Sport" != maps.tags[1]
      && Matches(a, Handlers.ToggleSelection(DefaultCriteria(), Tags, "Sport"), maps, parse)
  {
    var a := Sample(1, "A", "2023-01-10", true, [1]);
    var maps := RefMaps(map[1 := "Sports", 2 := "Sport"], map[], map[]);
    var c := Handlers.ToggleSelection(DefaultCriteria(), Tags, "Sport");
    assert c.tags == ["Sport"];
    var joined := JoinedNames(a.tags, maps.tags);
    assert ResolvedNames([1], maps.tags) == [Lower("Sports")];
    assert Lower("Sports") == "sports" && Lower("Sport") == "sport";
    assert joined == "sports";
    assert StartsWith(joined, "sport");
    SelectionIff(c.tags, joined);
  }
}
