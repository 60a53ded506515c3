# H&M fashion dashboard: selection logic

A Dafny model of the record-selection logic of a Streamlit business-intelligence
dashboard over an H&M-style product catalogue. The dashboard itself is
rendering; what it decides about rows is modelled here:

- `filter_products` (data_loader.py): narrow the catalogue by an optional mood,
  price range, colour and minimum hotness, each skipped when it is missing or a
  "match-all" value (`"All Moods"`, `"All Colors"`, an empty string, a hotness
  of `0.0`).
- The image file name of `get_image_path`: `str(article_id).zfill(10) + ".jpg"`,
  joined to the images directory.
- The inline filter cascades of app.py, with the `"All"` sentinel: the inventory
  filter, the recommendation candidates (mood always required) and the customer
  filter by segment and purchased mood, which the page runs twice (for the KPI
  cards and for the "Top Loyalists" pool).
- The four hotness tiers of the inventory page: membership, the per-tier
  summary shown on each button, and the cards of the selected tier (sorted by
  hotness, at most 20, five columns).
- The "High Performers" (`> 0.7`) and "Low Performers" (`< 0.3`) counts.

Rows are datatypes (`Tables.Product`, `Tables.Customer`, `Tables.Transaction`)
and a frame is a `seq` of rows. Boolean-mask indexing `frame[mask]` is
`Tables.Filter`, which keeps the selected rows in their order. Sequences are
values, so a filter can never change its input table; this is what the
source's `df.copy()` (data_loader.py:93) protects.

Each cascade that the source writes as successive reassignments of one local
frame is a method that does the same. Its `ensures` equates the result with a
single declarative selection, and lemmas state what that selection means.
Prices and hotness scores are `real`, so every comparison is exact.

The tier buttons are labelled `>0.8` for Premium (app.py:142) and `<0.3` for
Liquidation (app.py:145). The code, however, tests the half-open intervals `[0.8, 1.0)`, `[0.5, 0.8)`, `[0.3, 0.5)`
and `[0.0, 0.3)`. The model follows the code. So a hotness of exactly `0.8` is
Premium, and a hotness of exactly `1.0`, like any negative value, is in no tier
(`Inventory.TiersCover`).

Modules: `Tables` (rows, mask filtering, sums and means), `Ranking` (descending
sort and `head`), `DataLoader` (data_loader.py), and one module per app.py page:
`Inventory`, `CustomerDna`, `Recommendation`, `Performance`.

## Model

| member | source | states |
|---|---|---|
| `Tables.Filter` | data_loader.py:96 | mask indexing: the result has no more rows than the input, and a row is in it exactly when it is in the input and the mask holds for it |
| `DataLoader.FilterProducts` | data_loader.py:87-107 | applying the active criteria one after another returns exactly the rows that meet all of them, in input order |
| `DataLoader.FilterProductsPreservesOrder` | data_loader.py:93-107 | the result is an order-preserving subsequence of the input |
| `DataLoader.FilterProductsExact` | data_loader.py:95-105 | a row is in the result iff it is in the input and meets every active criterion, and it occurs there as often as in the input |
| `DataLoader.FilterProductsNoCriteria` | data_loader.py:93-107 | with no criterion active, and in particular with every argument `None`, the input comes back unchanged |
| `DataLoader.MoodSentinels` | data_loader.py:95-96 | a mood of `None`, `""` or `"All Moods"` gives the same result as no mood at all |
| `DataLoader.MoodSelects` | data_loader.py:95-96 | any other mood keeps exactly the rows of that mood that pass the other criteria |
| `DataLoader.PriceRangeSelects` | data_loader.py:98-99 | with a range set, a row is kept iff it passes the other criteria and `lo <= price <= hi`, both ends included |
| `DataLoader.InvertedPriceRange` | data_loader.py:98-99 | a range with `lo > hi` yields an empty result |
| `DataLoader.ColourSentinels` | data_loader.py:101-102 | a colour of `None`, `""` or `"All Colors"` gives the same result as no colour at all |
| `DataLoader.ZeroHotnessIsNoFilter` | data_loader.py:104-105 | a falsy minimum hotness of `0.0` applies no hotness filter |
| `DataLoader.HotnessMinSelects` | data_loader.py:104-105 | any other minimum, negative ones included, keeps exactly the otherwise-passing rows with `hotness >= hotness_min` |
| `DataLoader.FilterProductsIdempotent` | data_loader.py:93-107 | filtering the result again with the same criteria changes nothing |
| `DataLoader.ZFillLength` | data_loader.py:80 | the padded id has length `max(10, len(id))` |
| `DataLoader.ZFillUnsigned` | data_loader.py:80 | for an id without a sign, the padded id ends with the id and everything before it is `'0'` |
| `DataLoader.ZFillSigned` | data_loader.py:80 | a leading `+` or `-` stays first, followed by the zeros and the rest of the id |
| `DataLoader.DecimalText` | data_loader.py:80 | `str(n)` of an integer id is a non-empty digit string with no leading zero |
| `DataLoader.DecimalRoundTrip` | data_loader.py:80 | reading back `str(n)` as a number gives `n` |
| `DataLoader.LeadingZerosValue` | data_loader.py:80 | zeros put in front of a digit string do not change its value |
| `DataLoader.DecimalTextLength` | data_loader.py:80 | a number below `10^k` (`k >= 1`) is written with at most `k` digits |
| `DataLoader.PaddedArticleIdRoundTrip` | data_loader.py:80 | `str(n).zfill(10)` is an all-digit string of at least ten characters, exactly ten for ids below `10^10`, that still denotes `n` |
| `DataLoader.ImagePathShape` | data_loader.py:80-81 | for a digit-string id, the file name is the zero-padded id followed by `.jpg`, placed under `data/hm_web_images/` |
| `DataLoader.ImagePathExample` | data_loader.py:80-81 | id `108775015` gives `data/hm_web_images/0108775015.jpg` |
| `Ranking.SortDesc` | app.py:175-178 | `sort_values(..., ascending=False)`: a permutation of its input in which the key never increases |
| `Ranking.Head` | app.py:185 | `.head(n)`: the first `min(n, len)` rows |
| `Ranking.TopRows` | app.py:394 | sorted then cut at `n`: at most `n` rows, largest first, which together with the rows cut off are exactly the input, and no row cut off has a larger key than a row kept |
| `Inventory.InventoryFilter` | app.py:123-132 | the cascade keeps exactly the rows matching each non-`"All"` selection, in catalogue order, and returns the whole catalogue when all three selections are `"All"` |
| `Inventory.TierOf` | app.py:141-146 | a hotness is in a tier exactly when `min_h <= hotness < max_h`, and that tier is the one a four-step function picks |
| `Inventory.TiersDisjoint` | app.py:141-154 | no hotness is in two tiers |
| `Inventory.TiersCover` | app.py:141-154 | some tier holds a hotness iff it lies in `[0, 1)`; a hotness of `1.0` is in none |
| `Inventory.TierPartition` | app.py:150-154 | the four tier sizes add up to the number of rows with hotness in `[0, 1)`, so to the whole table when all rows are in range |
| `Inventory.SummaryBounds` | app.py:156-157 | an empty tier shows average price and hotness 0; a non-empty tier's average hotness lies inside the tier's interval |
| `Inventory.TierSummaries` | app.py:150-157 | the loop over `tier_data` yields one summary per tier, in dictionary order |
| `Inventory.RankingMembers` | app.py:175-178 | every row of a tier's ranking is a row of the filtered frame inside that tier |
| `Inventory.TierCards` | app.py:171-186 | no cards without a selected tier; otherwise `min(20, tier size)` cards of tier members in descending hotness, card `idx` in column `idx % 5` of `0..4` |
| `Performance.CountsAreStrict` | app.py:662-665 | a row adds to the high count iff its hotness is above 0.7 and to the low count iff below 0.3 |
| `Performance.CountsDisjoint` | app.py:662-665 | high plus low performers never exceed the number of rows |
| `Performance.CountsAgainstTiers` | app.py:662-665 | every premium row is a high performer and every liquidation row a low performer, so neither tier outnumbers its count; with no negative hotness the low count is the liquidation tier's size |
| `Performance.AnalysisRows` | app.py:648-651 | `"All"` selects the whole catalogue; any other emotion exactly the rows of that mood |
| `Performance.AnalysisRowsPreserveOrder` | app.py:648-651 | the selection keeps catalogue order |
| `Recommendation.Candidates` | app.py:470-496 | candidates are exactly the rows with the selected mood, a price inside the inclusive slider range and any non-`"All"` category and group; the high-performer count is their number above 0.7; `lo > hi` leaves nothing |
| `CustomerDna.BuyersOf` | app.py:324-326 | an id is among the emotion's buyers iff some transaction of that mood carries it |
| `CustomerDna.SelectedCustomersExact` | app.py:316-327 | a customer is selected iff it is listed, has the chosen segment (if any) and bought the chosen mood (if any, with purchases loaded); customer order is kept |
| `CustomerDna.KpiCustomers` | app.py:316-327 | the KPI cascade returns exactly the selected customers |
| `CustomerDna.LoyalistPool` | app.py:382-391 | the "Top Loyalists" cascade returns the same customers as the KPI cascade |
| `CustomerDna.TopLoyalists` | app.py:393-394 | at most 15 selected customers, by descending purchase count; no pool customer left out has more purchases than one shown |

## Left out

- `load_data_from_drive` (data_loader.py:18-76) and utils/data_loader.py: downloads, zip extraction, directory creation and Streamlit caching are I/O.
- The `os.path.exists` check of `get_image_path` (data_loader.py:83-85): it reads the file system. `DataLoader.ImagePath` is the path that is checked; the `None` result for a missing file is not modelled.
- `os.path.join` is modelled for two POSIX components only.
- Widgets, `st.session_state.selected_tier` and its update by the tier buttons (app.py:160-166), charts and the product detail modal: rendering and framework reruns. `Inventory.TierCards` takes the selected tier as an argument.
- The `emotions` column of "Top Loyalists" (app.py:400-411): it relies on pandas `.mode()` tie-breaking, which is not visible in this source.
- `Inventory.TierCards`: fixes the stable order among equal hotness scores, which is one order pandas may produce; the model does not claim pandas' tie order.
- `CustomerDna.TopLoyalists`: fixes the stable order among equal purchase counts, which is one order pandas may produce; the model does not claim pandas' tie order.
- Revenue, margin, median, standard deviation, group-by statistics and value counts (app.py:31-44, 235-242, 499-500, 653-654): floating-point display values. Only the tier averages are modelled, over exact reals.
- `pd.cut` binning (app.py:686-705) and the "Top 10 Emotion Heroes" table (app.py:274): their behaviour lives in pandas.
- `get_smart_recommendations` and `get_tier_info` (called at app.py:554 and app.py:544): their definitions are not part of this model.
- Floating point and missing values: prices and hotness scores are exact reals; NaN, which fails every pandas comparison and is skipped by `.mean()`, is not modelled.
- The Emotion Analytics selection (app.py:222-226) is the same expression as `Performance.AnalysisRows` and is not modelled separately.
- The `except Exception` handlers, missing-column checks (`'segment' in df_customers.columns`) and the "customer data not available" branch: error display, not selection.
- The price slider (app.py:461-467) always yields `lo <= hi` within the catalogue's price span; the model takes any pair of bounds, so that case is covered but not assumed.
