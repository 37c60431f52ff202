/** The nation catalogue, candidate filtering by name prefix, and resolution of
    a candidate list to one nation. */
module Nations {
  import opened Text
  import opened Model

  /** One entry of the static nation catalogue (`NATIONS_BY_ID`). */
  datatype CatalogNation = CatalogNation(id: NationId, name: string, era: Era)

  /** The catalogue in its iteration order. It is a map keyed by id, so ids are distinct. */
  type Catalog = seq<CatalogNation>

  predicate DistinctIds(catalog: Catalog) {
    forall i, j :: 0 <= i < j < |catalog| ==> catalog[i].id != catalog[j].id
  }

  ghost predicate NoDuplicates<T>(xs: seq<T>) {
    forall i, j :: 0 <= i < j < |xs| ==> xs[i] != xs[j]
  }

  /** The elements of `xs` that satisfy `keep`, in their original order
      (an iterator `filter` followed by `collect`). */
  function Filter<T(==)>(xs: seq<T>, keep: T -> bool): (r: seq<T>)
    ensures |r| <= |xs|
    ensures forall i :: 0 <= i < |r| ==> r[i] in xs && keep(r[i])
    ensures forall i :: 0 <= i < |xs| && keep(xs[i]) ==> xs[i] in r
  {
    if xs == [] then []
    else if keep(xs[0]) then [xs[0]] + Filter(xs[1..], keep)
    else Filter(xs[1..], keep)
  }

  /** The filter keeps every copy of a kept element and no copy of a dropped
      one, so the length of its result counts repeated entries. */
  lemma {:induction false} FilterMultiplicity<T>(xs: seq<T>, keep: T -> bool, x: T)
    ensures multiset(Filter(xs, keep))[x] == if keep(x) then multiset(xs)[x] else 0
  {
    if xs != [] {
      FilterMultiplicity(xs[1..], keep, x);
      assert xs == [xs[0]] + xs[1..];
      assert multiset(xs) == multiset([xs[0]]) + multiset(xs[1..]);
      if keep(xs[0]) {
        var r := Filter(xs, keep);
        assert r == [xs[0]] + Filter(xs[1..], keep);
        assert multiset(r) == multiset([xs[0]]) + multiset(Filter(xs[1..], keep));
      }
    }
  }

  /** The lobby filter condition: the lobby's era, and a name that starts with the query. */
  function LobbyFilter(era: Era, query: string): CatalogNation -> bool {
    (n: CatalogNation) => n.era == era && NameMatches(n.name, query)
  }

  /** A lobby's candidates for a lower-cased query: the catalogue nations of the
      lobby's era whose lower-cased name starts with the query. */
  function LobbyCandidates(catalog: Catalog, era: Era, query: string): (r: seq<CatalogNation>)
    ensures forall n :: n in r <==> n in catalog && n.era == era && NameMatches(n.name, query)
    ensures |r| <= |catalog|
  {
    Filter(catalog, LobbyFilter(era, query))
  }

  /** The started-game filter condition: a name that starts with the query. */
  function RosterFilter(query: string): RosterNation -> bool {
    (n: RosterNation) => NameMatches(n.name, query)
  }

  /** A started game's candidates: every roster nation whose lower-cased name
      starts with the query, whatever its era. */
  function RosterCandidates(roster: seq<RosterNation>, query: string): (r: seq<RosterNation>)
    ensures forall n :: n in r <==> n in roster && NameMatches(n.name, query)
    ensures |r| <= |roster|
  {
    Filter(roster, RosterFilter(query))
  }

  /** The three ways a query can resolve against a candidate list. */
  datatype Resolution<T> = Unique(nation: T) | Ambiguous | NotFound

  /** One candidate is a match; several are ambiguous, with no tie-break; none is not found. */
  function Resolve<T>(candidates: seq<T>): (r: Resolution<T>)
    ensures r.NotFound? <==> candidates == []
    ensures r.Ambiguous? <==> |candidates| > 1
    ensures r.Unique? ==> candidates == [r.nation]
  {
    if |candidates| > 1 then Ambiguous
    else if |candidates| < 1 then NotFound
    else Unique(candidates[0])
  }

  /** The distinct elements of `xs` that satisfy `keep`. */
  ghost function Kept<T>(xs: seq<T>, keep: T -> bool): set<T> {
    set x | x in xs && keep(x)
  }

  /** On a list without repeats, the filter keeps exactly as many elements as
      there are distinct elements satisfying the condition. */
  lemma {:induction false} FilterCountsMatches<T>(xs: seq<T>, keep: T -> bool)
    requires NoDuplicates(xs)
    ensures |Filter(xs, keep)| == |Kept(xs, keep)|
  {
    if xs != [] {
      var tail := xs[1..];
      assert NoDuplicates(tail) by {
        forall i, j | 0 <= i < j < |tail| ensures tail[i] != tail[j] {
          assert tail[i] == xs[i + 1] && tail[j] == xs[j + 1];
        }
      }
      FilterCountsMatches(tail, keep);
      var rest := Kept(tail, keep);
      assert xs[0] !in tail by {
        forall k | 0 <= k < |tail| ensures tail[k] != xs[0] {
          assert tail[k] == xs[k + 1];
        }
      }
      assert xs == [xs[0]] + tail;
      if keep(xs[0]) {
        assert Kept(xs, keep) == rest + {xs[0]};
      } else {
        assert Kept(xs, keep) == rest;
      }
    }
  }

  /** The catalogue nations a lobby query matches, as a set. */
  ghost function LobbyMatches(catalog: Catalog, era: Era, query: string): set<CatalogNation> {
    set n | n in catalog && n.era == era && NameMatches(n.name, query)
  }

  /** Resolution in a lobby, stated over the set of matching catalogue nations:
      not found exactly when none matches, ambiguous exactly when two or more
      do, and otherwise the one match. */
  lemma LobbyResolution(catalog: Catalog, era: Era, query: string)
    requires DistinctIds(catalog)
    ensures var r := Resolve(LobbyCandidates(catalog, era, query));
            var m := LobbyMatches(catalog, era, query);
            && (r.NotFound? <==> m == {})
            && (r.Ambiguous? <==> |m| > 1)
            && (r.Unique? <==> |m| == 1)
            && (r.Unique? ==> m == {r.nation})
  {
    var keep := LobbyFilter(era, query);
    assert NoDuplicates(catalog);
    FilterCountsMatches(catalog, keep);
    var cands := LobbyCandidates(catalog, era, query);
    var m := LobbyMatches(catalog, era, query);
    assert Kept(catalog, keep) == m;
    if |m| == 1 {
      assert cands[0] in m;
    }
  }

  /** The roster nations a started-game query matches, as a set. */
  ghost function RosterMatches(roster: seq<RosterNation>, query: string): set<RosterNation> {
    set n | n in roster && NameMatches(n.name, query)
  }

  /** Resolution in a started game, stated over the set of matching roster
      nations: not found exactly when none matches, ambiguous exactly when two
      or more do, and otherwise the one match. */
  lemma RosterResolution(roster: seq<RosterNation>, query: string)
    requires NoDuplicates(roster)
    ensures var r := Resolve(RosterCandidates(roster, query));
            var m := RosterMatches(roster, query);
            && (r.NotFound? <==> m == {})
            && (r.Ambiguous? <==> |m| > 1)
            && (r.Unique? <==> |m| == 1)
            && (r.Unique? ==> m == {r.nation})
  {
    var keep := RosterFilter(query);
    FilterCountsMatches(roster, keep);
    var cands := RosterCandidates(roster, query);
    var m := RosterMatches(roster, query);
    assert Kept(roster, keep) == m;
    if |m| == 1 {
      assert cands[0] in m;
    }
  }
}
