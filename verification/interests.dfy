/** `mapInterestsToEntities`: the keyword table that turns free-text interests
    into recommendation categories. Each interest is lowercased and checked
    against every category's keywords in table order; a category is listed the
    first time one of its keywords occurs, and nothing found means a fixed
    fallback. The algorithm is written over any table, then fixed to the one
    the provider uses. */
module InterestMapping {
  import opened Text

  /** Category names with their keywords, in declaration order. */
  type Table = seq<(string, seq<string>)>

  const EntityMap: Table := [
    ("movie", ["film", "cinema", "movies", "actor", "actress", "director"]),
    ("tv_show", ["tv", "television", "series", "show", "episode", "netflix", "hbo"]),
    ("book", ["book", "novel", "reading", "author", "literature"]),
    ("brand", ["brand", "fashion", "clothing", "tech", "gadget"]),
    ("person", ["celebrity", "influencer", "artist", "musician", "actor", "actress"])
  ]

  const Fallback: seq<string> := ["movie", "tv_show", "book"]

  /** `keywords.some(keyword => interest.toLowerCase().includes(keyword))`. */
  predicate Matches(interest: string, keywords: seq<string>) {
    exists k :: 0 <= k < |keywords| && Contains(Lower(interest), keywords[k])
  }

  /** The categories among the first `j` table entries that one interest hits,
      in table order. */
  function HitsUpTo(interest: string, table: Table, j: nat): seq<string>
    requires j <= |table|
  {
    if j == 0 then []
    else HitsUpTo(interest, table, j - 1) + (if Matches(interest, table[j - 1].1) then [table[j - 1].0] else [])
  }

  /** Every hit of the first `n` interests, interests first, then table order,
      repeats included: the order in which the loops discover categories. */
  function Discoveries(interests: seq<string>, table: Table, n: nat): seq<string>
    requires n <= |interests|
  {
    if n == 0 then []
    else Discoveries(interests, table, n - 1) + HitsUpTo(interests[n - 1], table, |table|)
  }

  /** `if (!entities.includes(entity)) entities.push(entity)`. */
  function AddNew(acc: seq<string>, x: string): seq<string> {
    if x in acc then acc else acc + [x]
  }

  /** The pushes of a sequence of discoveries, in order. */
  function Dedup(xs: seq<string>): seq<string> {
    if |xs| == 0 then [] else AddNew(Dedup(xs[..|xs| - 1]), xs[|xs| - 1])
  }

  /** The reference result: the discoveries without repeats, or the fallback. */
  function MapSpec(interests: seq<string>, table: Table): seq<string> {
    var found := Dedup(Discoveries(interests, table, |interests|));
    if |found| > 0 then found else Fallback
  }

  /** Some interest hits some category. */
  predicate AnyMatch(interests: seq<string>, table: Table) {
    exists i, j :: 0 <= i < |interests| && 0 <= j < |table| && Matches(interests[i], table[j].1)
  }

  /** Where `x` first appears. */
  function FirstIndex(xs: seq<string>, x: string): (r: nat)
    requires x in xs
    ensures r < |xs| && xs[r] == x && x !in xs[..r]
  {
    var n := |xs| - 1;
    if x in xs[..n] then
      var r := FirstIndex(xs[..n], x);
      assert xs[..n][..r] == xs[..r];
      r
    else
      assert xs == xs[..n] + [xs[n]];
      n
  }

  lemma DedupSnoc(xs: seq<string>, x: string)
    ensures Dedup(xs + [x]) == AddNew(Dedup(xs), x)
  {
    assert (xs + [x])[..|xs|] == xs;
  }

  lemma HitsSnoc(interest: string, table: Table, j: nat)
    requires j < |table|
    ensures HitsUpTo(interest, table, j + 1) ==
      HitsUpTo(interest, table, j) + (if Matches(interest, table[j].1) then [table[j].0] else [])
  {
  }

  /** `keywords.some(keyword => lowered.includes(keyword))`, stopping at the
      first hit. */
  method SomeKeyword(lowered: string, keywords: seq<string>) returns (any: bool)
    ensures any <==> exists m :: 0 <= m < |keywords| && Contains(lowered, keywords[m])
  {
    any := false;
    var k := 0;
    while k < |keywords| && !any
      invariant 0 <= k <= |keywords|
      invariant any <==> exists m :: 0 <= m < k && Contains(lowered, keywords[m])
    {
      any := Contains(lowered, keywords[k]);
      k := k + 1;
    }
  }

  /** The loops of `mapInterestsToEntities` over any table. */
  method MapWith(interests: seq<string>, table: Table) returns (entities: seq<string>)
    ensures entities == MapSpec(interests, table)
  {
    entities := [];
    var i := 0;
    while i < |interests|
      invariant 0 <= i <= |interests|
      invariant entities == Dedup(Discoveries(interests, table, i))
    {
      entities := AddHits(entities, interests, table, i);
      i := i + 1;
    }
    if |entities| == 0 {
      entities := Fallback;
    }
  }

  /** One pass of the outer loop: the categories interest `i` hits are pushed
      when new. */
  method AddHits(entities: seq<string>, interests: seq<string>, table: Table, i: nat) returns (next: seq<string>)
    requires i < |interests|
    requires entities == Dedup(Discoveries(interests, table, i))
    ensures next == Dedup(Discoveries(interests, table, i + 1))
  {
    var lowered := Lower(interests[i]);
    var found := Discoveries(interests, table, i);
    next := entities;
    var j := 0;
    assert found + HitsUpTo(interests[i], table, 0) == found;
    while j < |table|
      invariant 0 <= j <= |table|
      invariant next == Dedup(found + HitsUpTo(interests[i], table, j))
    {
      var entity := table[j].0;
      var any := SomeKeyword(lowered, table[j].1);
      var before := found + HitsUpTo(interests[i], table, j);
      HitsSnoc(interests[i], table, j);
      if any {
        DedupSnoc(before, entity);
        assert found + HitsUpTo(interests[i], table, j + 1) == before + [entity];
        if entity !in next {
          next := next + [entity];
        }
      } else {
        assert found + HitsUpTo(interests[i], table, j + 1) == before;
      }
      j := j + 1;
    }
  }

  /** `mapInterestsToEntities(interests)` with the provider's table. */
  method MapInterestsToEntities(interests: seq<string>) returns (entities: seq<string>)
    ensures entities == MapSpec(interests, EntityMap)
  {
    entities := MapWith(interests, EntityMap);
  }

  // ---------------------------------------------------------------------------
  // Properties
  // ---------------------------------------------------------------------------

  predicate Distinct(xs: seq<string>) {
    forall a, b :: 0 <= a < b < |xs| ==> xs[a] != xs[b]
  }

  /** The pushes keep exactly the discovered values, once each, empty only when
      nothing was discovered. */
  lemma {:induction false} DedupFacts(xs: seq<string>)
    ensures Distinct(Dedup(xs))
    ensures forall x :: x in Dedup(xs) <==> x in xs
    ensures |Dedup(xs)| == 0 <==> |xs| == 0
    decreases |xs|
  {
    if |xs| > 0 {
      var n := |xs| - 1;
      DedupFacts(xs[..n]);
      assert xs == xs[..n] + [xs[n]];
    }
  }

  /** The pushes keep the order of first discovery. */
  lemma {:induction false} DedupOrder(xs: seq<string>)
    ensures forall x :: x in Dedup(xs) ==> x in xs
    ensures forall a, b :: 0 <= a < b < |Dedup(xs)| ==>
              FirstIndex(xs, Dedup(xs)[a]) < FirstIndex(xs, Dedup(xs)[b])
    decreases |xs|
  {
    DedupFacts(xs);
    if |xs| > 0 {
      var n := |xs| - 1;
      var init := xs[..n];
      DedupOrder(init);
      DedupFacts(init);
      assert xs == init + [xs[n]];
      var d := Dedup(xs);
      forall y | y in init
        ensures FirstIndex(xs, y) == FirstIndex(init, y)
      {
        var r := FirstIndex(init, y);
        assert xs[..r] == init[..r];
        FirstIndexUnique(xs, y, r);
      }
      if xs[n] !in init {
        assert FirstIndex(xs, xs[n]) == n by {
          FirstIndexUnique(xs, xs[n], n);
        }
      }
    }
  }

  /** Any position that holds `x` with no earlier `x` is the first index. */
  lemma FirstIndexUnique(xs: seq<string>, x: string, r: nat)
    requires r < |xs| && xs[r] == x && x !in xs[..r]
    ensures FirstIndex(xs, x) == r
  {
  }

  /** A category is discovered exactly when some interest hits one of its
      keywords. */
  lemma {:induction false} HitsIff(interest: string, table: Table, j: nat)
    requires j <= |table|
    ensures forall x :: x in HitsUpTo(interest, table, j) <==>
              exists e :: 0 <= e < j && table[e].0 == x && Matches(interest, table[e].1)
  {
    if j > 0 {
      HitsIff(interest, table, j - 1);
    }
  }

  lemma {:induction false} DiscoveriesIff(interests: seq<string>, table: Table, n: nat)
    requires n <= |interests|
    ensures forall x :: x in Discoveries(interests, table, n) <==>
              exists i, e :: 0 <= i < n && 0 <= e < |table| && table[e].0 == x && Matches(interests[i], table[e].1)
  {
    if n > 0 {
      DiscoveriesIff(interests, table, n - 1);
      HitsIff(interests[n - 1], table, |table|);
    }
  }

  /** Nothing is discovered exactly when no interest hits any category. */
  lemma NoDiscoveriesIff(interests: seq<string>, table: Table)
    ensures |Discoveries(interests, table, |interests|)| == 0 <==> !AnyMatch(interests, table)
  {
    var xs := Discoveries(interests, table, |interests|);
    DiscoveriesIff(interests, table, |interests|);
    if |xs| > 0 {
      assert xs[0] in xs;
    }
    if AnyMatch(interests, table) {
      var i, e :| 0 <= i < |interests| && 0 <= e < |table| && Matches(interests[i], table[e].1);
      assert table[e].0 in xs;
    }
  }

  /** The result never repeats a category. */
  lemma MapDistinct(interests: seq<string>)
    ensures Distinct(MapSpec(interests, EntityMap))
  {
    DedupFacts(Discoveries(interests, EntityMap, |interests|));
  }

  /** When something matches, the result lists exactly the categories one of
      whose keywords occurs in some lowercased interest. */
  lemma MapMembers(interests: seq<string>)
    requires AnyMatch(interests, EntityMap)
    ensures forall x :: x in MapSpec(interests, EntityMap) <==>
              exists i, e :: 0 <= i < |interests| && 0 <= e < |EntityMap| && EntityMap[e].0 == x &&
                             Matches(interests[i], EntityMap[e].1)
  {
    var xs := Discoveries(interests, EntityMap, |interests|);
    NoDiscoveriesIff(interests, EntityMap);
    DedupFacts(xs);
    DiscoveriesIff(interests, EntityMap, |interests|);
  }

  /** When something matches, categories come in the order the loops first
      discover them: interests first, then table order. */
  lemma MapOrder(interests: seq<string>)
    requires AnyMatch(interests, EntityMap)
    ensures var xs := Discoveries(interests, EntityMap, |interests|);
            var r := MapSpec(interests, EntityMap);
            && (forall x :: x in r ==> x in xs)
            && forall a, b :: 0 <= a < b < |r| ==> FirstIndex(xs, r[a]) < FirstIndex(xs, r[b])
  {
    var xs := Discoveries(interests, EntityMap, |interests|);
    NoDiscoveriesIff(interests, EntityMap);
    DedupFacts(xs);
    DedupOrder(xs);
  }

  /** With no match the answer is the three-category fallback; with a match it
      is the non-empty list of discoveries. */
  lemma MapFallback(interests: seq<string>)
    ensures !AnyMatch(interests, EntityMap) ==> MapSpec(interests, EntityMap) == Fallback
    ensures AnyMatch(interests, EntityMap) ==>
              MapSpec(interests, EntityMap) == Dedup(Discoveries(interests, EntityMap, |interests|)) &&
              |MapSpec(interests, EntityMap)| > 0
  {
    NoDiscoveriesIff(interests, EntityMap);
    DedupFacts(Discoveries(interests, EntityMap, |interests|));
  }
}
