/**
 * The "Inventory & Pricing" page of app.py: the emotion / category / product
 * group cascade with its "All" sentinel, the four hotness tiers, the summary
 * shown on each tier's button, and the product cards of the selected tier.
 */
module Inventory {
  import opened Tables
  import opened Ranking

  // ---------------------------------------------------------------------------
  // The filter cascade
  // ---------------------------------------------------------------------------

  predicate InventoryMatch(emotion: string, category: string, group: string, p: Product)
  {
    && (emotion != All ==> p.mood == emotion)
    && (category != All ==> p.sectionName == category)
    && (group != All ==> p.productGroupName == group)
  }

  /**
   * `filtered_df`: a copy of the catalogue narrowed by each selection that is
   * not "All", in turn. The result is the rows matching every real selection,
   * in catalogue order, and the whole catalogue when all three are "All".
   */
  method InventoryFilter(df: Table, emotion: string, category: string, group: string)
    returns (filtered: Table)
    ensures filtered == Filter(df, (p: Product) => InventoryMatch(emotion, category, group, p))
    ensures forall p :: p in filtered <==> p in df && InventoryMatch(emotion, category, group, p)
    ensures emotion == All && category == All && group == All ==> filtered == df
  {
    ghost var sofar: Product -> bool := (p: Product) => true;
    FilterKeepsAll(df, sofar);
    filtered := df;

    if emotion != All {
      var keep := (p: Product) => p.mood == emotion;
      ghost var next := (p: Product) => sofar(p) && keep(p);
      FilterThen(df, sofar, keep, next);
      filtered := Filter(filtered, keep);
      sofar := next;
    }
    assert filtered == Filter(df, sofar);
    assert forall p :: sofar(p) == (emotion != All ==> p.mood == emotion);

    if category != All {
      var keep := (p: Product) => p.sectionName == category;
      ghost var next := (p: Product) => sofar(p) && keep(p);
      FilterThen(df, sofar, keep, next);
      filtered := Filter(filtered, keep);
      sofar := next;
    }
    assert filtered == Filter(df, sofar);
    assert forall p ::
      sofar(p) == ((emotion != All ==> p.mood == emotion) && (category != All ==> p.sectionName == category));

    if group != All {
      var keep := (p: Product) => p.productGroupName == group;
      ghost var next := (p: Product) => sofar(p) && keep(p);
      FilterThen(df, sofar, keep, next);
      filtered := Filter(filtered, keep);
      sofar := next;
    }
    assert filtered == Filter(df, sofar);
    assert forall p :: sofar(p) == InventoryMatch(emotion, category, group, p);
    FilterExt(df, sofar, (p: Product) => InventoryMatch(emotion, category, group, p));
    if emotion == All && category == All && group == All {
      FilterKeepsAll(df, (p: Product) => InventoryMatch(emotion, category, group, p));
    }
  }

  // ---------------------------------------------------------------------------
  // The four tiers
  // ---------------------------------------------------------------------------

  /** The keys of `tier_data`, in the dictionary's insertion order. */
  datatype Tier = Premium | Trend | Stability | Liquidation

  const TierOrder: seq<Tier> := [Premium, Trend, Stability, Liquidation]

  function MinHotness(t: Tier): real
  {
    match t
    case Premium => 0.8
    case Trend => 0.5
    case Stability => 0.3
    case Liquidation => 0.0
  }

  function MaxHotness(t: Tier): real
  {
    match t
    case Premium => 1.0
    case Trend => 0.8
    case Stability => 0.5
    case Liquidation => 0.3
  }

  /** `(hotness_score >= min_h) & (hotness_score < max_h)`. */
  predicate InTier(t: Tier, h: real)
  {
    MinHotness(t) <= h < MaxHotness(t)
  }

  predicate InTierRow(t: Tier, p: Product) { InTier(t, p.hotness) }

  /** `tier_products`: the rows of the (filtered) frame inside one tier. */
  function TierMembers(df: Table, t: Tier): Table
  {
    Filter(df, (p: Product) => InTierRow(t, p))
  }

  /**
   * The tier a hotness falls in, as a step function: at least 0.8 and below
   * 1.0, at least 0.5, at least 0.3, at least 0.0; anything else is in none.
   */
  function TierOf(h: real): (r: Option<Tier>)
    ensures forall t :: InTier(t, h) <==> r == Some(t)
  {
    if 0.8 <= h < 1.0 then Some(Premium)
    else if 0.5 <= h < 0.8 then Some(Trend)
    else if 0.3 <= h < 0.5 then Some(Stability)
    else if 0.0 <= h < 0.3 then Some(Liquidation)
    else None
  }

  /** No hotness lies in two tiers. */
  lemma TiersDisjoint(t1: Tier, t2: Tier, h: real)
    requires t1 != t2
    ensures !(InTier(t1, h) && InTier(t2, h))
  {
  }

  /** The tiers cover exactly `[0, 1)`: 1.0, negatives and values above 1 are in no tier. */
  lemma TiersCover(h: real)
    ensures (exists t :: InTier(t, h)) <==> 0.0 <= h < 1.0
    ensures h == 1.0 ==> forall t :: !InTier(t, h)
  {
    var r := TierOf(h);
    if 0.0 <= h < 1.0 {
      assert InTier(r.value, h);
    }
  }

  predicate InUnitRange(p: Product) { 0.0 <= p.hotness < 1.0 }

  function TierSizes(df: Table): nat
  {
    |TierMembers(df, Premium)| + |TierMembers(df, Trend)|
      + |TierMembers(df, Stability)| + |TierMembers(df, Liquidation)|
  }

  /**
   * The four tiers partition the rows whose hotness lies in `[0, 1)`: their
   * sizes add up to the number of such rows, and to the whole table when
   * every hotness is in range.
   */
  lemma {:induction false} TierPartition(df: Table)
    ensures TierSizes(df) == |Filter(df, InUnitRange)|
    ensures (forall p :: p in df ==> InUnitRange(p)) ==> TierSizes(df) == |df|
  {
    if df != [] {
      TierPartition(df[1..]);
      var _ := TierOf(df[0].hotness);
    }
    if forall p :: p in df ==> InUnitRange(p) {
      FilterKeepsAll(df, InUnitRange);
    }
  }

  // ---------------------------------------------------------------------------
  // The tier buttons
  // ---------------------------------------------------------------------------

  /** What a tier button shows: product count, average price, average hotness. */
  datatype TierSummary = TierSummary(tier: Tier, count: nat, avgPrice: real, avgHotness: real)

  function Summarize(df: Table, t: Tier): TierSummary
  {
    var members := TierMembers(df, t);
    TierSummary(t, |members|, MeanOrZero(members, Price), MeanOrZero(members, Hotness))
  }

  /**
   * An empty tier shows averages of 0; a non-empty one shows an average
   * hotness inside the tier's own interval.
   */
  lemma SummaryBounds(df: Table, t: Tier)
    ensures var s := Summarize(df, t);
      && s.count == |TierMembers(df, t)|
      && (s.count == 0 ==> s.avgPrice == 0.0 && s.avgHotness == 0.0)
      && (s.count > 0 ==> MinHotness(t) <= s.avgHotness < MaxHotness(t))
  {
    MeanBounds(TierMembers(df, t), Hotness, MinHotness(t), MaxHotness(t));
  }

  /** The loop over `tier_data.items()`: one summary per tier, in dictionary order. */
  method TierSummaries(df: Table) returns (rows: seq<TierSummary>)
    ensures |rows| == |TierOrder|
    ensures forall i :: 0 <= i < |rows| ==> rows[i] == Summarize(df, TierOrder[i])
  {
    rows := [];
    for idx := 0 to |TierOrder|
      invariant |rows| == idx
      invariant forall i :: 0 <= i < idx ==> rows[i] == Summarize(df, TierOrder[i])
    {
      var t := TierOrder[idx];
      var tierProducts := TierMembers(df, t);
      var avgPrice := if |tierProducts| > 0 then Total(tierProducts, Price) / (|tierProducts| as real) else 0.0;
      var avgHotness := if |tierProducts| > 0 then Total(tierProducts, Hotness) / (|tierProducts| as real) else 0.0;
      rows := rows + [TierSummary(t, |tierProducts|, avgPrice, avgHotness)];
    }
  }

  // ---------------------------------------------------------------------------
  // The product cards of the selected tier
  // ---------------------------------------------------------------------------

  const MaxCards: nat := 20
  const CardColumns: nat := 5

  /** One product card and the column (`idx % 5`) it is placed in. */
  datatype Card = Card(column: nat, product: Product)

  /** The tier's rows sorted by hotness, largest first. */
  function TierRanking(df: Table, t: Tier): Table
  {
    SortDesc(TierMembers(df, t), Hotness)
  }

  /** Every row of the ranking is a row of the frame inside the tier. */
  lemma RankingMembers(df: Table, t: Tier, p: Product)
    requires p in TierRanking(df, t)
    ensures p in df && InTier(t, p.hotness)
  {
    var members := TierMembers(df, t);
    assert multiset(TierRanking(df, t))[p] > 0;
    assert p in multiset(members);
  }

  /**
   * The cards of the selected tier (nothing when no tier is selected): the
   * tier's rows by descending hotness, at most 20 of them, card `idx` in
   * column `idx % 5`.
   */
  method TierCards(filtered: Table, selected: Option<Tier>) returns (cards: seq<Card>)
    ensures selected.None? ==> cards == []
    ensures selected.Some? ==>
      var t := selected.value;
      && |cards| == Min(MaxCards, |TierMembers(filtered, t)|)
      && (forall i :: 0 <= i < |cards| ==>
            && cards[i].column == i % CardColumns
            && cards[i].column < CardColumns
            && cards[i].product == TierRanking(filtered, t)[i]
            && cards[i].product in filtered
            && InTier(t, cards[i].product.hotness))
      && (forall i, j :: 0 <= i < j < |cards| ==> cards[i].product.hotness >= cards[j].product.hotness)
  {
    cards := [];
    if selected.None? {
      return;
    }
    var t := selected.value;
    var ranked := SortDesc(TierMembers(filtered, t), Hotness);
    var shown := Head(ranked, MaxCards);
    for idx := 0 to |shown|
      invariant |cards| == idx
      invariant forall i :: 0 <= i < idx ==> cards[i] == Card(i % CardColumns, shown[i])
    {
      cards := cards + [Card(idx % CardColumns, shown[idx])];
    }
    forall i | 0 <= i < |cards|
      ensures cards[i].product in filtered && InTier(t, cards[i].product.hotness)
    {
      RankingMembers(filtered, t, ranked[i]);
    }
  }
}
