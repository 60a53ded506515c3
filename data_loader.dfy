/**
 * The selection logic of data_loader.py: `filter_products`, which narrows the
 * product catalogue one optional criterion at a time, and the image file name
 * built from a zero-padded article id in `get_image_path`.
 */
module DataLoader {
  import opened Tables

  // ---------------------------------------------------------------------------
  // filter_products
  // ---------------------------------------------------------------------------

  /** The optional arguments of `filter_products`; `None` is Python's `None`. */
  datatype ProductQuery = ProductQuery(
    mood: Option<string>,
    priceRange: Option<(real, real)>,
    colour: Option<string>,
    hotnessMin: Option<real>
  )

  const AllMoods: string := "All Moods"
  const AllColors: string := "All Colors"

  /** `if mood and mood != "All Moods"`: a non-empty string other than the sentinel. */
  predicate MoodActive(mood: Option<string>)
  {
    mood.Some? && mood.value != "" && mood.value != AllMoods
  }

  /** `if price_range`: any pair is truthy, so only `None` skips the range. */
  predicate PriceActive(range: Option<(real, real)>)
  {
    range.Some?
  }

  /** `if color and color != "All Colors"`. */
  predicate ColourActive(colour: Option<string>)
  {
    colour.Some? && colour.value != "" && colour.value != AllColors
  }

  /** `if hotness_min`: `None` and `0.0` are falsy; every other number is truthy. */
  predicate HotnessActive(hotnessMin: Option<real>)
  {
    hotnessMin.Some? && hotnessMin.value != 0.0
  }

  predicate MoodOk(q: ProductQuery, p: Product)
  {
    MoodActive(q.mood) ==> p.mood == q.mood.value
  }

  predicate PriceOk(q: ProductQuery, p: Product)
  {
    PriceActive(q.priceRange) ==> q.priceRange.value.0 <= p.price <= q.priceRange.value.1
  }

  predicate ColourOk(q: ProductQuery, p: Product)
  {
    ColourActive(q.colour) ==> p.colour == q.colour.value
  }

  predicate HotnessOk(q: ProductQuery, p: Product)
  {
    HotnessActive(q.hotnessMin) ==> p.hotness >= q.hotnessMin.value
  }

  /** A row passes the query when it meets every criterion that is switched on. */
  predicate MatchesQuery(q: ProductQuery, p: Product)
  {
    MoodOk(q, p) && PriceOk(q, p) && ColourOk(q, p) && HotnessOk(q, p)
  }

  /** The rows `filter_products` returns, stated as one declarative selection. */
  function ProductsMatching(df: Table, q: ProductQuery): Table
  {
    Filter(df, (p: Product) => MatchesQuery(q, p))
  }

  /**
   * `filter_products`: start from (a copy of) the frame and narrow `result`
   * by each active criterion in turn. The sequence of narrowings selects
   * exactly the rows that meet every active criterion, in their order.
   */
  method FilterProducts(df: Table, q: ProductQuery) returns (result: Table)
    ensures result == ProductsMatching(df, q)
  {
    ghost var sofar: Product -> bool := (p: Product) => true;
    FilterKeepsAll(df, sofar);
    result := df;

    if MoodActive(q.mood) {
      var keep := (p: Product) => p.mood == q.mood.value;
      ghost var next := (p: Product) => sofar(p) && keep(p);
      FilterThen(df, sofar, keep, next);
      result := Filter(result, keep);
      sofar := next;
    }
    assert result == Filter(df, sofar);
    assert forall p :: sofar(p) == MoodOk(q, p);

    if PriceActive(q.priceRange) {
      var lo, hi := q.priceRange.value.0, q.priceRange.value.1;
      var keep := (p: Product) => p.price >= lo && p.price <= hi;
      ghost var next := (p: Product) => sofar(p) && keep(p);
      FilterThen(df, sofar, keep, next);
      result := Filter(result, keep);
      sofar := next;
    }
    assert result == Filter(df, sofar);
    assert forall p :: sofar(p) == (MoodOk(q, p) && PriceOk(q, p));

    if ColourActive(q.colour) {
      var keep := (p: Product) => p.colour == q.colour.value;
      ghost var next := (p: Product) => sofar(p) && keep(p);
      FilterThen(df, sofar, keep, next);
      result := Filter(result, keep);
      sofar := next;
    }
    assert result == Filter(df, sofar);
    assert forall p :: sofar(p) == (MoodOk(q, p) && PriceOk(q, p) && ColourOk(q, p));

    if HotnessActive(q.hotnessMin) {
      var keep := (p: Product) => p.hotness >= q.hotnessMin.value;
      ghost var next := (p: Product) => sofar(p) && keep(p);
      FilterThen(df, sofar, keep, next);
      result := Filter(result, keep);
      sofar := next;
    }
    assert result == Filter(df, sofar);
    assert forall p :: sofar(p) == MatchesQuery(q, p);
    FilterExt(df, sofar, (p: Product) => MatchesQuery(q, p));
  }

  /** The result keeps rows in the input's order: it is a subsequence of it. */
  lemma FilterProductsPreservesOrder(df: Table, q: ProductQuery)
    ensures IsSubsequence(ProductsMatching(df, q), df)
  {
    FilterIsSubsequence(df, (p: Product) => MatchesQuery(q, p));
  }

  /**
   * Sound and complete: a row is in the result exactly when it is in the
   * input and meets every active criterion; and it occurs there as often as
   * in the input.
   */
  lemma FilterProductsExact(df: Table, q: ProductQuery, p: Product)
    ensures p in ProductsMatching(df, q) <==> p in df && MatchesQuery(q, p)
    ensures multiset(ProductsMatching(df, q))[p] == if MatchesQuery(q, p) then multiset(df)[p] else 0
  {
    FilterMultiset(df, (p: Product) => MatchesQuery(q, p));
  }

  /** With no criterion switched on (in particular all `None`) the frame comes back whole. */
  lemma FilterProductsNoCriteria(df: Table, q: ProductQuery)
    requires !MoodActive(q.mood) && !PriceActive(q.priceRange)
    requires !ColourActive(q.colour) && !HotnessActive(q.hotnessMin)
    ensures ProductsMatching(df, q) == df
    ensures ProductsMatching(df, ProductQuery(None, None, None, None)) == df
  {
    FilterKeepsAll(df, (p: Product) => MatchesQuery(q, p));
    var none := ProductQuery(None, None, None, None);
    FilterKeepsAll(df, (p: Product) => MatchesQuery(none, p));
  }

  /** `None`, `""` and `"All Moods"` for mood all leave the mood unfiltered. */
  lemma MoodSentinels(df: Table, q: ProductQuery)
    requires q.mood == None || q.mood == Some("") || q.mood == Some(AllMoods)
    ensures ProductsMatching(df, q) == ProductsMatching(df, q.(mood := None))
  {
    var q0 := q.(mood := None);
    FilterExt(df, (p: Product) => MatchesQuery(q, p), (p: Product) => MatchesQuery(q0, p));
  }

  /** Any other mood keeps exactly the rows of that mood that pass the remaining criteria. */
  lemma MoodSelects(df: Table, q: ProductQuery, m: string, p: Product)
    requires q.mood == Some(m) && m != "" && m != AllMoods
    ensures p in ProductsMatching(df, q) <==> p in ProductsMatching(df, q.(mood := None)) && p.mood == m
  {
  }

  /** `None`, `""` and `"All Colors"` for colour all leave the colour unfiltered. */
  lemma ColourSentinels(df: Table, q: ProductQuery)
    requires q.colour == None || q.colour == Some("") || q.colour == Some(AllColors)
    ensures ProductsMatching(df, q) == ProductsMatching(df, q.(colour := None))
  {
    var q0 := q.(colour := None);
    FilterExt(df, (p: Product) => MatchesQuery(q, p), (p: Product) => MatchesQuery(q0, p));
  }

  /**
   * The price range includes both ends: with a range set, a row is kept exactly
   * when it passes the other criteria and `lo <= price <= hi`.
   */
  lemma PriceRangeSelects(df: Table, q: ProductQuery, lo: real, hi: real, p: Product)
    requires q.priceRange == Some((lo, hi))
    ensures p in ProductsMatching(df, q) <==> p in ProductsMatching(df, q.(priceRange := None)) && lo <= p.price <= hi
  {
  }

  /** A range whose low end exceeds its high end selects nothing. */
  lemma InvertedPriceRange(df: Table, q: ProductQuery)
    requires q.priceRange.Some? && q.priceRange.value.0 > q.priceRange.value.1
    ensures ProductsMatching(df, q) == []
  {
    FilterDropsAll(df, (p: Product) => MatchesQuery(q, p));
  }

  /** A falsy `hotness_min` of `0.0` applies no hotness filter at all. */
  lemma ZeroHotnessIsNoFilter(df: Table, q: ProductQuery)
    requires q.hotnessMin == Some(0.0)
    ensures ProductsMatching(df, q) == ProductsMatching(df, q.(hotnessMin := None))
  {
    var q0 := q.(hotnessMin := None);
    FilterExt(df, (p: Product) => MatchesQuery(q, p), (p: Product) => MatchesQuery(q0, p));
  }

  /**
   * Any other `hotness_min` (a negative one too) keeps exactly the rows that
   * pass the remaining criteria and have `hotness >= hotness_min`.
   */
  lemma HotnessMinSelects(df: Table, q: ProductQuery, h: real, p: Product)
    requires q.hotnessMin == Some(h) && h != 0.0
    ensures p in ProductsMatching(df, q) <==> p in ProductsMatching(df, q.(hotnessMin := None)) && p.hotness >= h
  {
  }

  /** Filtering an already filtered frame with the same criteria changes nothing. */
  lemma FilterProductsIdempotent(df: Table, q: ProductQuery)
    ensures ProductsMatching(ProductsMatching(df, q), q) == ProductsMatching(df, q)
  {
    FilterIdempotent(df, (p: Product) => MatchesQuery(q, p));
  }

  // ---------------------------------------------------------------------------
  // get_image_path: str(article_id).zfill(10) + ".jpg", joined to the directory
  // ---------------------------------------------------------------------------

  const IdWidth: nat := 10

  /** The directory `load_data_from_drive` extracts the image archive into. */
  const ImagesDir: string := "data/hm_web_images"

  predicate IsDigit(c: char) { '0' <= c <= '9' }

  predicate IsDigits(s: string) { forall i :: 0 <= i < |s| ==> IsDigit(s[i]) }

  function Zeros(n: nat): (r: string)
    ensures |r| == n && forall i :: 0 <= i < n ==> r[i] == '0'
  {
    if n == 0 then "" else "0" + Zeros(n - 1)
  }

  /**
   * Python's `str.zfill(width)`: left-pad with `'0'` up to `width` characters;
   * a leading `'+'` or `'-'` stays in front of the padding.
   */
  function ZFill(s: string, width: nat): string
  {
    if |s| >= width then s
    else if |s| > 0 && (s[0] == '+' || s[0] == '-') then [s[0]] + Zeros(width - |s|) + s[1..]
    else Zeros(width - |s|) + s
  }

  /** The padded id is never shorter than `width` nor than the id itself. */
  lemma ZFillLength(s: string, width: nat)
    ensures |ZFill(s, width)| == if |s| >= width then |s| else width
  {
  }

  /** For an unsigned id the padding is all zeros in front of the unchanged id. */
  lemma ZFillUnsigned(s: string, width: nat)
    requires s == [] || (s[0] != '+' && s[0] != '-')
    ensures var r := ZFill(s, width);
      && |r| >= |s|
      && r[|r| - |s|..] == s
      && forall i :: 0 <= i < |r| - |s| ==> r[i] == '0'
  {
  }

  /** A sign moves in front of the padding; the digits after it are unchanged. */
  lemma ZFillSigned(s: string, width: nat)
    requires |s| > 0 && (s[0] == '+' || s[0] == '-') && |s| < width
    ensures var r := ZFill(s, width);
      && |r| == width
      && r[0] == s[0]
      && r[width - |s| + 1..] == s[1..]
      && forall i :: 1 <= i <= width - |s| ==> r[i] == '0'
  {
  }

  /** The decimal text `str(n)` of a non-negative integer id. */
  function DecimalText(n: nat): (r: string)
    ensures |r| > 0 && IsDigits(r)
    ensures |r| > 1 ==> r[0] != '0'
  {
    if n < 10 then [DigitChar(n)] else DecimalText(n / 10) + [DigitChar(n % 10)]
  }

  function DigitChar(d: nat): (c: char)
    requires d < 10
    ensures IsDigit(c)
  {
    ['0', '1', '2', '3', '4', '5', '6', '7', '8', '9'][d]
  }

  /** The number a digit string denotes (`int(s)`). */
  function DecimalValue(s: string): nat
    requires IsDigits(s)
  {
    if s == [] then 0 else 10 * DecimalValue(s[..|s| - 1]) + (s[|s| - 1] as int - '0' as int)
  }

  lemma {:induction false} DecimalRoundTrip(n: nat)
    ensures DecimalValue(DecimalText(n)) == n
  {
    if n >= 10 {
      DecimalRoundTrip(n / 10);
      var t := DecimalText(n);
      assert t[..|t| - 1] == DecimalText(n / 10);
    }
  }

  /** Leading zeros do not change the number a digit string denotes. */
  lemma {:induction false} LeadingZerosValue(k: nat, s: string)
    requires IsDigits(s)
    ensures IsDigits(Zeros(k) + s) && DecimalValue(Zeros(k) + s) == DecimalValue(s)
    decreases |s|, k
  {
    var z := Zeros(k) + s;
    if s == [] {
      assert z == Zeros(k);
      if k > 0 {
        assert z[..|z| - 1] == Zeros(k - 1) + [];
        LeadingZerosValue(k - 1, []);
      }
    } else {
      assert z[..|z| - 1] == Zeros(k) + s[..|s| - 1];
      LeadingZerosValue(k, s[..|s| - 1]);
    }
  }

  /** The padded text of an integer id: `str(article_id).zfill(10)`. */
  function PaddedArticleId(n: nat): string
  {
    ZFill(DecimalText(n), IdWidth)
  }

  /** 10 to the power `k`. */
  function Pow10(k: nat): nat
  {
    if k == 0 then 1 else 10 * Pow10(k - 1)
  }

  /** A number below 10^k has at most k decimal digits (k >= 1). */
  lemma {:induction false} DecimalTextLength(n: nat, k: nat)
    requires 1 <= k && n < Pow10(k)
    ensures |DecimalText(n)| <= k
  {
    if n >= 10 && k >= 2 {
      assert n / 10 < Pow10(k - 1);
      DecimalTextLength(n / 10, k - 1);
    }
  }

  /**
   * Padding keeps the id: the padded id is all digits, at least ten
   * characters long, exactly ten for ids below 10^10, and denotes the same number.
   */
  lemma PaddedArticleIdRoundTrip(n: nat)
    ensures IsDigits(PaddedArticleId(n))
    ensures |PaddedArticleId(n)| >= IdWidth
    ensures n < Pow10(IdWidth) ==> |PaddedArticleId(n)| == IdWidth
    ensures DecimalValue(PaddedArticleId(n)) == n
  {
    var t := DecimalText(n);
    DecimalRoundTrip(n);
    if n < Pow10(IdWidth) {
      DecimalTextLength(n, IdWidth);
    }
    if |t| < IdWidth {
      LeadingZerosValue(IdWidth - |t|, t);
    }
  }

  /** The bare file name `f"{article_id}.jpg"` after padding. */
  function ImageFileName(articleId: string): string
  {
    ZFill(articleId, IdWidth) + ".jpg"
  }

  /** `os.path.join(a, b)` for POSIX paths and two components. */
  function JoinPath(dir: string, name: string): string
  {
    if |name| > 0 && name[0] == '/' then name
    else if dir == [] || dir[|dir| - 1] == '/' then dir + name
    else dir + "/" + name
  }

  /** The candidate image path, before the existence check. */
  function ImagePath(articleId: string, imagesDir: string): string
  {
    JoinPath(imagesDir, ImageFileName(articleId))
  }

  /**
   * For a digit-string id the file name is the id padded with zeros to ten
   * characters followed by `.jpg`, and the path is that name under the
   * images directory.
   */
  lemma ImagePathShape(articleId: string)
    requires IsDigits(articleId)
    ensures var name := ImageFileName(articleId); var pad := ZFill(articleId, IdWidth);
      && name == pad + ".jpg"
      && |pad| == (if |articleId| >= IdWidth then |articleId| else IdWidth)
      && pad[|pad| - |articleId|..] == articleId
      && (forall i :: 0 <= i < |pad| - |articleId| ==> pad[i] == '0')
      && ImagePath(articleId, ImagesDir) == ImagesDir + "/" + name
  {
  }

  lemma ImagePathExample()
    ensures ImagePath("108775015", ImagesDir) == "data/hm_web_images/0108775015.jpg"
  {
  }
}
