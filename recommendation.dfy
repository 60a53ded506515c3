/**
 * The candidate products of the "AI Recommendation" page of app.py: the
 * emotion is always required, category and product group only when they are
 * not "All", and the price must lie in the slider's inclusive range; then the
 * "High Performers" count over those candidates.
 */
module Recommendation {
  import opened Tables
  import Performance

  predicate IsCandidate(emotion: string, category: string, group: string, lo: real, hi: real, p: Product)
  {
    && p.mood == emotion
    && (category != All ==> p.sectionName == category)
    && (group != All ==> p.productGroupName == group)
    && lo <= p.price <= hi
  }

  /**
   * `filtered_products` and the high-performer count beside it. The candidates
   * are exactly the catalogue rows that pass every selection, in catalogue
   * order; the count is the number of them with hotness above 0.7.
   */
  method Candidates(df: Table, emotion: string, category: string, group: string, lo: real, hi: real)
    returns (candidates: Table, highPerformers: nat)
    ensures candidates == Filter(df, (p: Product) => IsCandidate(emotion, category, group, lo, hi, p))
    ensures forall p :: p in candidates <==> p in df && IsCandidate(emotion, category, group, lo, hi, p)
    ensures highPerformers == Performance.HighPerformers(candidates)
    ensures highPerformers <= |candidates|
    ensures lo > hi ==> candidates == [] && highPerformers == 0
  {
    ghost var sofar: Product -> bool := (p: Product) => p.mood == emotion;
    candidates := Filter(df, (p: Product) => p.mood == emotion);
    assert candidates == Filter(df, sofar);

    if category != All {
      var keep := (p: Product) => p.sectionName == category;
      ghost var next := (p: Product) => sofar(p) && keep(p);
      FilterThen(df, sofar, keep, next);
      candidates := Filter(candidates, keep);
      sofar := next;
    }
    assert candidates == Filter(df, sofar);
    assert forall p ::
      sofar(p) == (p.mood == emotion && (category != All ==> p.sectionName == category));

    if group != All {
      var keep := (p: Product) => p.productGroupName == group;
      ghost var next := (p: Product) => sofar(p) && keep(p);
      FilterThen(df, sofar, keep, next);
      candidates := Filter(candidates, keep);
      sofar := next;
    }
    assert candidates == Filter(df, sofar);

    var inRange := (p: Product) => p.price >= lo && p.price <= hi;
    ghost var next := (p: Product) => sofar(p) && inRange(p);
    FilterThen(df, sofar, inRange, next);
    candidates := Filter(candidates, inRange);
    assert forall p :: next(p) == IsCandidate(emotion, category, group, lo, hi, p);
    FilterExt(df, next, (p: Product) => IsCandidate(emotion, category, group, lo, hi, p));

    highPerformers := |Filter(candidates, (p: Product) => p.hotness > 0.7)|;
    FilterExt(candidates, (p: Product) => p.hotness > 0.7, Performance.IsHighPerformer);
    if lo > hi {
      FilterDropsAll(df, (p: Product) => IsCandidate(emotion, category, group, lo, hi, p));
    }
  }
}
