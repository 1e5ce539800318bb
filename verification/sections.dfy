/** `RecommendationsSection`: which category lists are shown, under what title,
    and the key each card is rendered with. A list is `None` where the
    recommendations object holds `null` or `undefined`. */
module Sections {
  import opened Wrappers
  import opened Text
  import opened Json
  import opened Records

  /** The five titled categories. */
  const SectionTitles: map<string, string> := map[
    "movie" := "\U{1F3AC} Movie Matches",
    "tv_show" := "\U{1F4FA} TV Show Matches",
    "book" := "\U{1F4DA} Book Matches",
    "brand" := "\U{1F3F7}\U{FE0F} Brand Matches",
    "person" := "\U{1F464} People You Might Like"
  ]

  const MatchesSuffix := " Matches"

  /** `items && items.length > 0`. */
  predicate Shown(items: Option<seq<Value>>) {
    items.Some? && |items.value| > 0
  }

  /** `Object.entries(recommendations).filter(([_, items]) => items && items.length > 0)`. */
  function ActiveSections(recs: Entries<Option<seq<Value>>>): (r: Entries<seq<Value>>)
    ensures |r| <= |recs|
    ensures forall i :: 0 <= i < |r| ==> |r[i].1| > 0
  {
    if |recs| == 0 then []
    else
      var head := recs[0];
      (if Shown(head.1) then [(head.0, head.1.value)] else []) + ActiveSections(recs[1..])
  }

  /** `sectionTitles[type] || \`${type.charAt(0).toUpperCase() + type.slice(1)} Matches\``. */
  function SectionTitle(entityType: string): (r: string)
    ensures entityType in SectionTitles ==> r == SectionTitles[entityType]
    ensures entityType !in SectionTitles ==>
              && |r| == |entityType| + |MatchesSuffix|
              && r[|entityType|..] == MatchesSuffix
              && (|entityType| > 0 ==> r[0] == UpperChar(entityType[0]) && r[1..|entityType|] == entityType[1..])
  {
    if entityType in SectionTitles then SectionTitles[entityType]
    else if |entityType| == 0 then MatchesSuffix
    else [UpperChar(entityType[0])] + entityType[1..] + MatchesSuffix
  }

  /** One `RecommendationCard` with its React key. */
  datatype Card = Card(key: string, item: Value, entityType: string)

  datatype Section = Section(title: string, cards: seq<Card>)

  /** `${type}-${index}`. */
  function CardKey(entityType: string, index: nat): string {
    entityType + "-" + NatToString(index)
  }

  /** `items.map((item, index) => <RecommendationCard key=… item type/>)`. */
  function Cards(entityType: string, items: seq<Value>): (r: seq<Card>)
    ensures |r| == |items|
    ensures forall i :: 0 <= i < |r| ==> r[i].item == items[i] && r[i].entityType == entityType
  {
    seq(|items|, i requires 0 <= i < |items| => Card(CardKey(entityType, i), items[i], entityType))
  }

  /** The component: `null` when no section is active, else one section per
      active entry. */
  function Render(recs: Entries<Option<seq<Value>>>): (r: Option<seq<Section>>)
    ensures r.None? <==> |ActiveSections(recs)| == 0
    ensures r.Some? ==> |r.value| == |ActiveSections(recs)|
    ensures r.Some? ==> forall i :: 0 <= i < |r.value| ==>
              && r.value[i].title == SectionTitle(ActiveSections(recs)[i].0)
              && r.value[i].cards == Cards(ActiveSections(recs)[i].0, ActiveSections(recs)[i].1)
  {
    var active := ActiveSections(recs);
    if |active| == 0 then None
    else Some(seq(|active|, i requires 0 <= i < |active| =>
      Section(SectionTitle(active[i].0), Cards(active[i].0, active[i].1))))
  }

  // ---------------------------------------------------------------------------
  // Properties
  // ---------------------------------------------------------------------------

  /** The filter distributes over concatenation, so it keeps entry order. */
  lemma {:induction false} ActiveSectionsConcat(a: Entries<Option<seq<Value>>>, b: Entries<Option<seq<Value>>>)
    ensures ActiveSections(a + b) == ActiveSections(a) + ActiveSections(b)
    decreases |a|
  {
    if |a| == 0 {
      assert a + b == b;
    } else {
      assert (a + b)[0] == a[0];
      assert (a + b)[1..] == a[1..] + b;
      ActiveSectionsConcat(a[1..], b);
    }
  }

  /** A single entry is kept exactly when its list is present and non-empty. */
  lemma ActiveSectionsOne(entityType: string, items: Option<seq<Value>>)
    ensures ActiveSections([(entityType, items)]) ==
              if Shown(items) then [(entityType, items.value)] else []
  {
  }

  /** An entry is active exactly when the input holds it with a non-empty list. */
  lemma {:induction false} ActiveSectionsIff(recs: Entries<Option<seq<Value>>>)
    ensures forall t, items :: (t, items) in ActiveSections(recs) <==> |items| > 0 && (t, Some(items)) in recs
    decreases |recs|
  {
    if |recs| > 0 {
      ActiveSectionsIff(recs[1..]);
      assert recs == [recs[0]] + recs[1..];
    }
  }

  /** Nothing is rendered exactly when no entry has a non-empty list. */
  lemma RenderNothingIff(recs: Entries<Option<seq<Value>>>)
    ensures Render(recs).None? <==> forall i :: 0 <= i < |recs| ==> !Shown(recs[i].1)
  {
    ActiveSectionsIff(recs);
    if Render(recs).Some? {
      var a := ActiveSections(recs);
      assert a[0] in a;
      assert (a[0].0, Some(a[0].1)) in recs;
    }
  }

  /** Within a section the card keys are pairwise distinct. */
  lemma CardKeysDistinct(entityType: string, items: seq<Value>)
    ensures var cards := Cards(entityType, items);
            forall i, j :: 0 <= i < j < |cards| ==> cards[i].key != cards[j].key
  {
    var cards := Cards(entityType, items);
    forall i, j | 0 <= i < j < |cards|
      ensures cards[i].key != cards[j].key
    {
      var prefix := entityType + "-";
      assert cards[i].key == prefix + NatToString(i);
      assert cards[j].key == prefix + NatToString(j);
      if cards[i].key == cards[j].key {
        assert NatToString(i) == cards[i].key[|prefix|..];
        assert NatToString(j) == cards[j].key[|prefix|..];
        NatToStringInjective(i, j);
      }
    }
  }
}
