/** The roller's prefab lookup:
    `dice.SingleOrDefault(toCheck => toCheck.type == rollToSpawn.dice).dicePrefab`. */
module Catalog {
  import opened Types

  /** What LINQ's `SingleOrDefault` yields for a predicate: the one matching
      element, the default value when nothing matches, or an
      `InvalidOperationException` when more than one element matches. */
  datatype Lookup = Unique(entry: DiceObjectType) | Missing | Duplicate

  predicate Matches(catalog: seq<DiceObjectType>, i: int, t: DiceType) {
    0 <= i < |catalog| && catalog[i].kind == t
  }

  predicate NoMatch(catalog: seq<DiceObjectType>, t: DiceType) {
    forall i :: 0 <= i < |catalog| ==> !Matches(catalog, i, t)
  }

  predicate TwoMatches(catalog: seq<DiceObjectType>, t: DiceType) {
    exists i, j :: 0 <= i < j < |catalog| && Matches(catalog, i, t) && Matches(catalog, j, t)
  }

  predicate OnlyMatch(catalog: seq<DiceObjectType>, i: int, t: DiceType) {
    Matches(catalog, i, t) && forall j :: 0 <= j < |catalog| && j != i ==> !Matches(catalog, j, t)
  }

  /** LINQ's `SingleOrDefault`, scanning the catalog front to back. */
  function SingleOrDefault(catalog: seq<DiceObjectType>, t: DiceType): (r: Lookup)
    ensures r.Unique? ==> r.entry in catalog && r.entry.kind == t
    decreases |catalog|
  {
    if catalog == [] then Missing
    else
      var rest := SingleOrDefault(catalog[1..], t);
      if catalog[0].kind != t then rest
      else if rest.Missing? then Unique(catalog[0])
      else Duplicate
  }

  /** What a lookup result says about the catalog: the default exactly when
      nothing matches, the exception exactly when two entries match, and
      otherwise the only matching entry. */
  ghost predicate DescribesLookup(catalog: seq<DiceObjectType>, t: DiceType, r: Lookup) {
    && (r.Missing? <==> NoMatch(catalog, t))
    && (r.Duplicate? <==> TwoMatches(catalog, t))
    && (r.Unique? ==> exists i :: OnlyMatch(catalog, i, t) && catalog[i] == r.entry)
  }

  /** The lookup finds the entry whose type is the only one to match, yields
      the default when none matches, and throws exactly when two entries
      match. */
  lemma {:induction false} SingleOrDefaultSpec(catalog: seq<DiceObjectType>, t: DiceType)
    ensures SingleOrDefault(catalog, t).Missing? <==> NoMatch(catalog, t)
    ensures SingleOrDefault(catalog, t).Duplicate? <==> TwoMatches(catalog, t)
    ensures SingleOrDefault(catalog, t).Unique? ==>
      exists i :: OnlyMatch(catalog, i, t) && catalog[i] == SingleOrDefault(catalog, t).entry
    decreases |catalog|
  {
    if catalog != [] {
      var rest := SingleOrDefault(catalog[1..], t);
      SingleOrDefaultSpec(catalog[1..], t);
      if catalog[0].kind != t {
        SkipStep(catalog, t, rest);
      } else {
        HeadStep(catalog, t, rest);
      }
    }
  }

  /** The entries after the first, renumbered. */
  lemma TailMatches(catalog: seq<DiceObjectType>, t: DiceType)
    requires catalog != []
    ensures forall i :: 0 <= i ==> (Matches(catalog[1..], i, t) <==> Matches(catalog, i + 1, t))
  {
  }

  /** A first entry of another type changes nothing about the lookup. */
  lemma SkipStep(catalog: seq<DiceObjectType>, t: DiceType, rest: Lookup)
    requires catalog != [] && catalog[0].kind != t
    requires DescribesLookup(catalog[1..], t, rest)
    ensures DescribesLookup(catalog, t, rest)
  {
    var tail := catalog[1..];
    TailMatches(catalog, t);
    if NoMatch(tail, t) {
      forall i | 0 <= i < |catalog| ensures !Matches(catalog, i, t) {
        if i > 0 { assert !Matches(tail, i - 1, t); }
      }
    }
    if TwoMatches(catalog, t) {
      var i, j :| 0 <= i < j < |catalog| && Matches(catalog, i, t) && Matches(catalog, j, t);
      assert Matches(tail, i - 1, t) && Matches(tail, j - 1, t);
    }
    if TwoMatches(tail, t) {
      var i, j :| 0 <= i < j < |tail| && Matches(tail, i, t) && Matches(tail, j, t);
      assert Matches(catalog, i + 1, t) && Matches(catalog, j + 1, t);
    }
    if rest.Unique? {
      var i :| OnlyMatch(tail, i, t) && tail[i] == rest.entry;
      assert OnlyMatch(catalog, i + 1, t) by {
        forall j | 0 <= j < |catalog| && j != i + 1 ensures !Matches(catalog, j, t) {
          if j > 0 { assert !Matches(tail, j - 1, t); }
        }
      }
    }
  }

  /** A matching first entry is the only match when the rest has none, and
      makes the lookup throw otherwise. */
  lemma HeadStep(catalog: seq<DiceObjectType>, t: DiceType, rest: Lookup)
    requires catalog != [] && catalog[0].kind == t
    requires DescribesLookup(catalog[1..], t, rest)
    ensures DescribesLookup(catalog, t, if rest.Missing? then Unique(catalog[0]) else Duplicate)
  {
    var tail := catalog[1..];
    TailMatches(catalog, t);
    assert Matches(catalog, 0, t);
    if rest.Missing? {
      assert OnlyMatch(catalog, 0, t) by {
        forall j | 0 < j < |catalog| ensures !Matches(catalog, j, t) {
          assert !Matches(tail, j - 1, t);
        }
      }
    } else {
      var j :| 0 <= j < |tail| && Matches(tail, j, t);
      assert Matches(catalog, j + 1, t);
    }
  }
}
