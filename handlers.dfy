/**
 * The criteria updates. Each one takes the previous filter state and returns a
 * new one that differs from it in exactly one field.
 */
module Handlers {
  import opened Wrappers
  import opened Records
  import JsArrays

  /** `handleInputChange`: sets the text field named by the input. */
  function SetText(c: Criteria, f: TextField, value: string): (r: Criteria)
    ensures TextOf(r, f) == value
    ensures SameExcept(r, c, f)
  {
    match f
    case SourceName => c.(sourceName := value)
    case Headline => c.(headline := value)
    case Url => c.(url := value)
    case Author => c.(author := value)
    case CoverageLevel => c.(coverageLevel := value)
    case Location => c.(location := value)
  }

  /** The select's value as a tri-state: "" is `null`, "true" is `true`, anything else `false`. */
  function ParsePaywall(value: string): (r: Option<bool>)
    ensures r == None <==> value == ""
    ensures r == Some(true) <==> value == "true"
    ensures r == Some(false) <==> value != "" && value != "true"
  {
    if value == "" then None else Some(value == "true")
  }

  /** `handlePaywallChange`. */
  function SetPaywall(c: Criteria, value: string): (r: Criteria)
    ensures r.paywall == ParsePaywall(value)
    ensures SameExcept(r, c, Paywall)
  {
    c.(paywall := ParsePaywall(value))
  }

  /**
   * Toggles `value` in a selection: appended at the end when absent, every
   * occurrence removed (the rest kept in order) when present.
   */
  function Toggle(list: seq<string>, value: string): (r: seq<string>)
    ensures value !in list ==> r == list + [value]
    ensures value in list ==> value !in r && JsArrays.IsSubsequence(r, list)
    ensures value in list ==> multiset(r) == multiset(list)[value := 0]
  {
    if value in list then
      var keep := (v: string) => v != value;
      JsArrays.FilterIsSubsequence(keep, list);
      assert forall x :: multiset(JsArrays.Filter(keep, list))[x] == if x != value then multiset(list)[x] else 0 by {
        forall x ensures multiset(JsArrays.Filter(keep, list))[x] == if x != value then multiset(list)[x] else 0 {
          JsArrays.FilterCount(keep, list, x);
        }
      }
      JsArrays.FilterMembership(keep, list, value);
      JsArrays.Filter(keep, list)
    else
      list + [value]
  }

  /** `handleMultiSelectChange`: toggles `value` in the named selection. */
  function ToggleSelection(c: Criteria, f: SelectField, value: string): (r: Criteria)
    ensures SelectionOf(r, f) == Toggle(SelectionOf(c, f), value)
    ensures SameExcept(r, c, f)
  {
    if f.Tags? then c.(tags := Toggle(c.tags, value))
    else c.(actorsMentioned := Toggle(c.actorsMentioned, value))
  }

  /** `handleDateChange`: sets one bound; the other bound keeps its value. */
  function SetDate(c: Criteria, f: DateField, value: string): (r: Criteria)
    ensures DateOf(r, f) == value
    ensures SameExcept(r, c, f)
  {
    if f.StartDate? then c.(publicationDate := c.publicationDate.(startDate := value))
    else c.(publicationDate := c.publicationDate.(endDate := value))
  }

  /** Toggling flips the membership of `value` and leaves every other name as it was. */
  lemma ToggleMembership(list: seq<string>, value: string, x: string)
    ensures x in Toggle(list, value) <==> (if x == value then value !in list else x in list)
  {
    if value in list && x != value {
      var r := Toggle(list, value);
      assert x in r <==> multiset(r)[x] > 0;
      assert x in list <==> multiset(list)[x] > 0;
    }
  }

  /** Toggling an absent name twice gives back the original selection. */
  lemma ToggleTwiceRestores(list: seq<string>, value: string)
    requires value !in list
    ensures Toggle(Toggle(list, value), value) == list
  {
    var once := list + [value];
    var keep := (v: string) => v != value;
    JsArrays.FilterAppend(keep, list, [value]);
    JsArrays.FilterKeepsAll(keep, list);
    assert JsArrays.Filter(keep, [value]) == [];
  }

  /** A selection without duplicates stays without duplicates after a toggle. */
  lemma ToggleKeepsDistinct(list: seq<string>, value: string)
    requires forall i, j :: 0 <= i < j < |list| ==> list[i] != list[j]
    ensures var r := Toggle(list, value); forall i, j :: 0 <= i < j < |r| ==> r[i] != r[j]
  {
    var r := Toggle(list, value);
    if value in list {
      forall x ensures multiset(r)[x] <= 1 {
        DistinctCount(list, x);
      }
      forall i, j | 0 <= i < j < |r| ensures r[i] != r[j] {
        if r[i] == r[j] {
          TwiceCounted(r, i, j);
          assert false;
        }
      }
    } else {
      assert r == list + [value];
      forall i, j | 0 <= i < j < |r| ensures r[i] != r[j] {
        if j == |list| {
          assert r[i] == list[i];
        } else {
          assert r[i] == list[i] && r[j] == list[j];
        }
      }
    }
  }

  /** In a list without duplicates every value occurs at most once. */
  lemma {:induction false} DistinctCount(s: seq<string>, x: string)
    requires forall i, j :: 0 <= i < j < |s| ==> s[i] != s[j]
    ensures multiset(s)[x] <= 1
    decreases |s|
  {
    if s != [] {
      assert s == [s[0]] + s[1..];
      DistinctCount(s[1..], x);
      if s[0] == x {
        assert x !in s[1..] by {
          forall k | 0 <= k < |s[1..]| ensures s[1..][k] != x {
            assert s[1..][k] == s[k + 1];
          }
        }
      }
    }
  }

  /** A value found at two positions is counted at least twice. */
  lemma {:induction false} TwiceCounted(s: seq<string>, i: int, j: int)
    requires 0 <= i < j < |s| && s[i] == s[j]
    ensures multiset(s)[s[i]] >= 2
  {
    assert s == s[..j] + [s[j]] + s[j + 1..];
    assert s[i] in s[..j];
    assert multiset(s) == multiset(s[..j]) + multiset([s[j]]) + multiset(s[j + 1..]);
  }
}
