/**
 * The emotion selection of the "Performance & Financial" page and the
 * threshold counts ("High Performers", "Low Performers") shown on it and on
 * the recommendation page.
 */
module Performance {
  import opened Tables
  import Inventory

  const HighThreshold: real := 0.7
  const LowThreshold: real := 0.3

  predicate IsHighPerformer(p: Product) { p.hotness > HighThreshold }

  predicate IsLowPerformer(p: Product) { p.hotness < LowThreshold }

  /** `len(frame[frame['hotness_score'] > 0.7])`. */
  function HighPerformers(t: Table): nat { |Filter(t, IsHighPerformer)| }

  /** `len(frame[frame['hotness_score'] < 0.3])`. */
  function LowPerformers(t: Table): nat { |Filter(t, IsLowPerformer)| }

  /**
   * Both thresholds are strict: appending a row raises the high count exactly
   * when its hotness is above 0.7 and the low count exactly when it is below
   * 0.3; a row at 0.7 or at 0.3 adds to neither.
   */
  lemma CountsAreStrict(t: Table, p: Product)
    ensures HighPerformers(t + [p]) == HighPerformers(t) + (if p.hotness > 0.7 then 1 else 0)
    ensures LowPerformers(t + [p]) == LowPerformers(t) + (if p.hotness < 0.3 then 1 else 0)
  {
    FilterSnoc(t, p, IsHighPerformer);
    FilterSnoc(t, p, IsLowPerformer);
  }

  /** No row is both, so the two counts together never exceed the number of rows. */
  lemma CountsDisjoint(t: Table)
    ensures HighPerformers(t) + LowPerformers(t) <= |t|
  {
    FilterDisjointCounts(t, IsHighPerformer, IsLowPerformer);
  }

  /**
   * Against the tiers: every premium row is a high performer and every
   * liquidation row a low performer, so neither tier outnumbers its count;
   * the low count is exactly the liquidation tier when no hotness is negative.
   */
  lemma CountsAgainstTiers(t: Table)
    ensures forall p :: Inventory.InTierRow(Inventory.Premium, p) ==> IsHighPerformer(p)
    ensures forall p :: Inventory.InTierRow(Inventory.Liquidation, p) ==> IsLowPerformer(p)
    ensures |Inventory.TierMembers(t, Inventory.Premium)| <= HighPerformers(t)
    ensures |Inventory.TierMembers(t, Inventory.Liquidation)| <= LowPerformers(t)
    ensures (forall p :: p in t ==> p.hotness >= 0.0) ==>
      LowPerformers(t) == |Inventory.TierMembers(t, Inventory.Liquidation)|
  {
    var premium := (p: Product) => Inventory.InTierRow(Inventory.Premium, p);
    var liquidation := (p: Product) => Inventory.InTierRow(Inventory.Liquidation, p);
    FilterMonotoneCount(t, premium, IsHighPerformer);
    FilterMonotoneCount(t, liquidation, IsLowPerformer);
    if forall p :: p in t ==> p.hotness >= 0.0 {
      FilterExt(t, liquidation, IsLowPerformer);
    }
  }

  /** `analysis_df`: the whole catalogue for "All", else the rows of that mood. */
  function AnalysisRows(df: Table, emotion: string): (r: Table)
    ensures emotion == All ==> r == df
    ensures emotion != All ==> forall p :: p in r <==> p in df && p.mood == emotion
  {
    if emotion == All then df else Filter(df, (p: Product) => p.mood == emotion)
  }

  /** The selection never reorders rows. */
  lemma AnalysisRowsPreserveOrder(df: Table, emotion: string)
    ensures IsSubsequence(AnalysisRows(df, emotion), df)
  {
    if emotion == All {
      FilterKeepsAll(df, (p: Product) => true);
      FilterIsSubsequence(df, (p: Product) => true);
    } else {
      FilterIsSubsequence(df, (p: Product) => p.mood == emotion);
    }
  }
}
