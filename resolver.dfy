/**
 * The reference resolver: turns a flat list of `{id, name}` lookup records into
 * an id-to-name map, one map per lookup kind.
 */
module Resolver {
  import opened Records

  /** The map left after writing the entities into an empty map, first to last. */
  function MapOf(es: seq<Entity>): map<Id, string>
    decreases |es|
  {
    if es == [] then map[]
    else MapOf(es[..|es| - 1])[es[|es| - 1].id := es[|es| - 1].name]
  }

  /** The set of identifiers occurring in `es`. */
  function IdsOf(es: seq<Entity>): set<Id> {
    set i | 0 <= i < |es| :: es[i].id
  }

  /** `es[i]` is the last entity in `es` carrying its identifier. */
  predicate IsLastWithId(es: seq<Entity>, i: int)
    requires 0 <= i < |es|
  {
    forall j :: i < j < |es| ==> es[j].id != es[i].id
  }

  /** The map's keys are exactly the identifiers of the list. */
  lemma {:induction false} MapOfKeys(es: seq<Entity>)
    ensures MapOf(es).Keys == IdsOf(es)
    decreases |es|
  {
    if es != [] {
      var init := es[..|es| - 1];
      MapOfKeys(init);
      assert IdsOf(es) == IdsOf(init) + {es[|es| - 1].id} by {
        forall k | k in IdsOf(es) ensures k in IdsOf(init) + {es[|es| - 1].id} {
          var i :| 0 <= i < |es| && es[i].id == k;
          if i < |es| - 1 {
            assert init[i] == es[i];
          }
        }
        forall k | k in IdsOf(init) ensures k in IdsOf(es) {
          var i :| 0 <= i < |init| && init[i].id == k;
          assert es[i] == init[i];
        }
      }
    }
  }

  /** Last write wins: each identifier maps to the name of the last entity carrying it. */
  lemma {:induction false} MapOfLastWins(es: seq<Entity>, i: int)
    requires 0 <= i < |es| && IsLastWithId(es, i)
    ensures es[i].id in MapOf(es) && MapOf(es)[es[i].id] == es[i].name
    decreases |es|
  {
    var n := |es| - 1;
    if i < n {
      var init := es[..n];
      assert init[i] == es[i];
      assert IsLastWithId(init, i) by {
        forall j | i < j < |init| ensures init[j].id != init[i].id {
          assert init[j] == es[j];
        }
      }
      MapOfLastWins(init, i);
      assert es[n].id != es[i].id;
    }
  }

  /**
   * `list.forEach(e => m[e.id] = e.name)` into a fresh map: the map holds every
   * identifier of the list, and for each the name of its last entity.
   */
  method BuildMap(entities: seq<Entity>) returns (m: map<Id, string>)
    ensures m == MapOf(entities)
    ensures m.Keys == IdsOf(entities)
    ensures forall i :: 0 <= i < |entities| && IsLastWithId(entities, i) ==> m[entities[i].id] == entities[i].name
  {
    m := map[];
    var i := 0;
    while i < |entities|
      invariant 0 <= i <= |entities|
      invariant m == MapOf(entities[..i])
    {
      assert entities[..i + 1][..i] == entities[..i];
      m := m[entities[i].id := entities[i].name];
      i := i + 1;
    }
    assert entities[..i] == entities;
    MapOfKeys(entities);
    forall j | 0 <= j < |entities| && IsLastWithId(entities, j)
      ensures m[entities[j].id] == entities[j].name
    {
      MapOfLastWins(entities, j);
    }
  }

  /** Builds the tag, actor and location maps, each from its own list only. */
  method BuildRefMaps(tags: seq<Entity>, actors: seq<Entity>, locations: seq<Entity>) returns (maps: RefMaps)
    ensures maps.tags == MapOf(tags) && maps.actors == MapOf(actors) && maps.locations == MapOf(locations)
  {
    var tMap := BuildMap(tags);
    var aMap := BuildMap(actors);
    var lMap := BuildMap(locations);
    maps := RefMaps(tMap, aMap, lMap);
  }
}
