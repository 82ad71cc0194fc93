# Market-basket recommendation model

A Dafny model of the computational core of `recommendation_poc.py`, a market-basket
analysis script over retail purchase records. The script loads line items (invoice,
product description, quantity, country). It drops returns and every country but the
United Kingdom. It sums quantities per (invoice, description) and pivots them into an
invoice × description matrix. That matrix is binarised into purchased / not-purchased
flags. A frequent-itemset miner and a rule deriver turn the flags into association
rules (antecedent set → consequent set). Finally `recommend_products` answers a
product name with the consequents of the rules whose antecedent names it.

The model covers the steps the script itself computes:

- `tables.dfy`, module `Tables`: selecting rows of a table by a boolean mask (`df[mask]`).
- `text.dfy`, module `Text`: `str.strip()` (the two scans CPython runs, over the full
  `str.isspace` whitespace set), `str.lower()` on ASCII letters, and the normal form
  `strip().lower()` used to compare product names.
- `transactions.dfy`, module `Transactions`: the record type and the two filters
  (quantity > 0, country = "United Kingdom").
- `basket.dfy`, module `Baskets`: the group-by sum as a fold over the records in row
  order, and `unstack().fillna(0)` as a full matrix with every row holding every column.
- `binarize.dfy`, module `Binarize`: `encode_units` and `astype(bool)`.
- `pipeline.dfy`, module `Pipeline`: the steps composed, and what the resulting boolean
  matrix means in terms of the input records.
- `recommender.dfy`, module `Recommender`: rule selection on normalised names, the loop
  that unions the stripped consequents, the exact-string removal of the query, and
  `list(...)[:top_n]` with Python's slice semantics (a negative `top_n` drops elements
  from the end).

The removal step at line 63 is modelled as written. The query is removed only in its
exact, unnormalised spelling, while rules are selected on the normalised spelling. So a
query with surrounding whitespace selects the same rules as its trimmed form
(`SelectionIgnoresPadding`) but can get a different answer. It can even be recommended
its own trimmed name (`QueryRemovalIsExact`). One might expect `" SomeProduct "` and
`"someproduct"` to get identical answers. The code only guarantees that they select the
same rules (`SelectionIgnoresPadding`, `SelectionIgnoresCase`); the removal of the query
can still make the answers differ, and the model follows the code.

## Model

| member | source | states |
|---|---|---|
| `Tables.Where` | recommendation_poc.py:8-10 | a masked selection keeps exactly the rows of the table that satisfy the mask, and no more rows than the table has |
| `Tables.WhereCounts` | recommendation_poc.py:8-10 | selection keeps every copy of an accepted row and none of a rejected one |
| `Tables.WhereConcat` | recommendation_poc.py:8-10 | selecting from two concatenated tables gives the two selections concatenated |
| `Text.SkipSpaceForward` | recommendation_poc.py:41 | the left scan of `strip` stops at the first non-whitespace character and skips only whitespace |
| `Text.SkipSpaceBackward` | recommendation_poc.py:41 | the right scan of `strip` stops after the last non-whitespace character, never passing the left scan's stop |
| `Text.Strip` | recommendation_poc.py:41 | the stripped string has no whitespace at either end, and it is empty exactly when the input is all whitespace |
| `Text.StripPadded` | recommendation_poc.py:41 | `strip` removes exactly the whitespace padding added around a trimmed string |
| `Text.StripSplit` | recommendation_poc.py:41 | every string is its stripped form with whitespace on either side |
| `Text.StripIdempotent` | recommendation_poc.py:59 | stripping a stripped string changes nothing |
| `Text.StripIgnoresPadding` | recommendation_poc.py:41 | extra surrounding whitespace does not change the stripped form |
| `Text.LowerChar` | recommendation_poc.py:41 | lower-casing a character maps each upper-case ASCII letter to the lower-case letter at the same position in the alphabet, changes no other character, leaves no upper-case ASCII letter, and keeps whitespace as whitespace |
| `Text.Lower` | recommendation_poc.py:41 | `lower` keeps the length and maps each character on its own |
| `Text.StripLowerCommute` | recommendation_poc.py:41 | stripping then lower-casing equals lower-casing then stripping |
| `Text.Normalize` | recommendation_poc.py:41 | the normal form `strip().lower()` is trimmed and already lower-case |
| `Text.NormalizeFixed` | recommendation_poc.py:41-44 | a name that is already trimmed and lower-case is its own normal form |
| `Text.NormalizeIdempotent` | recommendation_poc.py:41 | normalising a normal form changes nothing |
| `Text.NormalizeIgnoresPadding` | recommendation_poc.py:41 | names that differ only by surrounding whitespace have the same normal form |
| `Text.NormalizeIgnoresCase` | recommendation_poc.py:41 | names that differ only in letter case have the same normal form |
| `Transactions.DropReturns` | recommendation_poc.py:8 | a record survives exactly when it is in the input with a positive quantity, and it survives with all its copies |
| `Transactions.KeepRegion` | recommendation_poc.py:10 | a record survives exactly when it is in the input and of the region, and it survives with all its copies |
| `Transactions.Clean` | recommendation_poc.py:8-10 | a record survives both filters exactly when it is a purchase in the United Kingdom, with all its copies |
| `Transactions.CleanIsOneFilter` | recommendation_poc.py:8-10 | the two filters in the script's order select exactly the records satisfying `Kept`, keeping their order and copies |
| `Transactions.CleanSkipsDropped` | recommendation_poc.py:8-10 | inserting a return or a record of another region anywhere in the input leaves the filtered records unchanged |
| `Baskets.LineTotalSnoc` | recommendation_poc.py:16 | adding a record adds its quantity to its own (invoice, description) total and to no other |
| `Baskets.LineTotalAbsent` | recommendation_poc.py:16 | an (invoice, description) pair no record carries totals 0 |
| `Baskets.LineTotalOfPurchases` | recommendation_poc.py:16 | when all quantities are positive, a pair totals at least 1 exactly when some record carries it |
| `Baskets.LineTotalsAbsent` | recommendation_poc.py:16 | every (invoice, description) pair no record carries totals 0 |
| `Baskets.GroupSum` | recommendation_poc.py:16 | the group-by sum has a key exactly for each (invoice, description) pair some record carries |
| `Baskets.GroupSumTotals` | recommendation_poc.py:16 | the group-by sum has a key exactly for each (invoice, description) pair that occurs, valued at that pair's total quantity |
| `Baskets.Unstack` | recommendation_poc.py:16 | the pivot has one row per invoice label, each row has every description label, and a pair absent from the grouped sums is 0 |
| `Baskets.BuildBasket` | recommendation_poc.py:16 | every cell of the pivot equals the total quantity of the records with its invoice and description |
| `Baskets.RowsAreInvoices` | recommendation_poc.py:16 | the pivot's row labels are exactly the invoices of the records |
| `Baskets.ColumnsAreDescriptions` | recommendation_poc.py:16 | the pivot's column labels are exactly the descriptions of the records |
| `Baskets.BasketShape` | recommendation_poc.py:16 | the basket has a row for each invoice present, and each row has a column for each description present |
| `Baskets.BasketCells` | recommendation_poc.py:16 | every cell, read with absent cells as 0, equals the total quantity of the records with its invoice and description |
| `Binarize.EncodeUnits` | recommendation_poc.py:20-21 | the code is 0 or 1, and it is 1 exactly when the quantity is at least 1 |
| `Binarize.EncodeRow` | recommendation_poc.py:24 | a row keeps its columns and each cell is encoded |
| `Binarize.EncodeBasket` | recommendation_poc.py:24 | the encoded matrix keeps the shape and encodes every cell |
| `Binarize.BoolRow` | recommendation_poc.py:27 | `astype(bool)` on a row: a cell is true exactly when it is non-zero |
| `Binarize.AsBool` | recommendation_poc.py:27 | `astype(bool)` keeps the rows and converts each row |
| `Binarize.PresenceMatrix` | recommendation_poc.py:20-27 | the boolean matrix has the basket's shape and is true exactly at the cells holding at least 1 |
| `Pipeline.PresenceOf` | recommendation_poc.py:8-27 | a cell of the boolean matrix is true exactly when the kept records of its invoice and description total at least 1 |
| `Pipeline.PresenceShape` | recommendation_poc.py:8-27 | the boolean matrix has a row for each invoice of a kept record and a column for each description of a kept record |
| `Pipeline.PresenceMeansPurchased` | recommendation_poc.py:8-27 | a cell is true exactly when some United Kingdom purchase record has that invoice and description |
| `Pipeline.BasketCountsKept` | recommendation_poc.py:8-16 | each basket cell is the non-negative total of the kept records for its invoice and description |
| `Pipeline.DroppedRecordsLeaveNoTrace` | recommendation_poc.py:8-27 | a return or a record of another region changes neither the basket nor the boolean matrix |
| `Recommender.SelectRules` | recommendation_poc.py:41-45 | a rule is selected exactly when it is in the table and one of its antecedents has the query's normal form |
| `Recommender.MentionsNormalNames` | recommendation_poc.py:41-45 | when every antecedent is trimmed and lower-case, a rule mentions a query exactly when the query's normal form is one of its antecedents |
| `Recommender.SelectionIgnoresPadding` | recommendation_poc.py:41-45 | queries that differ only by surrounding whitespace select the same rules |
| `Recommender.SelectionIgnoresCase` | recommendation_poc.py:41-45 | queries that differ only in letter case select the same rules |
| `Recommender.StrippedConsequents` | recommendation_poc.py:59 | a rule contributes exactly the stripped forms of its consequents, each of them stripped |
| `Recommender.Collected` | recommendation_poc.py:57-60 | the union holds the stripped form of every consequent of every selected rule, every name in it is stripped, and with `CollectedOrigin` it holds exactly those names |
| `Recommender.CollectedOrigin` | recommendation_poc.py:57-60 | every name in the union is the stripped form of a consequent of a selected rule, so the union holds nothing else |
| `Recommender.Candidates` | recommendation_poc.py:57-63 | the query itself is never a candidate, and every other collected name is |
| `Recommender.CollectedSnoc` | recommendation_poc.py:57-60 | processing one more rule adds exactly its stripped consequents to the collected set |
| `Recommender.CollectConsequents` | recommendation_poc.py:57-60 | the loop over the selected rules yields the set of all their stripped consequents |
| `Recommender.CandidateOrigin` | recommendation_poc.py:57-63 | every candidate is the stripped form of a consequent of a selected rule, is itself stripped, and differs from the query |
| `Recommender.PaddedQueryNeverRemoved` | recommendation_poc.py:63 | a query with whitespace at an end is never among the collected products, so the removal removes nothing |
| `Recommender.QueryRemovalIsExact` | recommendation_poc.py:41-63 | on a one-rule table, "mug" and " mug" select the same rule, yet "mug" gets nothing while " mug" is recommended "mug" |
| `Recommender.TwoProductScenario` | recommendation_poc.py:40-64 | with the rules B → A and A → B, the query "A" selects only A → B and its only candidate is "B" |
| `Recommender.SliceLength` | recommendation_poc.py:64 | `[:top_n]` keeps at most the list, at most `top_n` for a non-negative limit, and all but the last `-top_n` for a negative one |
| `Recommender.ListOf` | recommendation_poc.py:64 | `list(s)` holds each member of the set exactly once |
| `Recommender.Recommend` | recommendation_poc.py:40-64 | no selected rule gives `[]`; every product returned is a candidate; the query is not returned; no duplicates; the length is the slice length of the candidate count; with a large enough limit every candidate is returned |
| `Recommender.RecommendDefault` | recommendation_poc.py:40-64 | with the default limit of 5: every product returned is a candidate, the query is not returned, there are no duplicates, the length is the slice length of the candidate count (so at most 5), and every candidate is returned when there are at most 5 |

## Left out

- Reading the CSV file (line 5) and every `print` (lines 12-13, 25, 31, 36, 70): I/O. The records are a parameter.
- `apriori` and `association_rules` (lines 30, 34): library calls whose source is not part of this model. The rules table is a parameter of the recommender.
- Support, confidence and lift values: floating point. `Rule` keeps a `confidence` field only as an ordering key.
- The sorts at lines 35, 53 and 55: the recommender gathers its answer into a set, so the order of the rules does not change which products are collected. Which `top_n` of them are returned is left open (see the Recommender.Recommend line below). The model takes the rules in the given order.
- Recommender.ListOf: the order in which `list()` lists a Python set is implementation-defined, so the model leaves it open and states only which elements appear, once each.
- Recommender.Recommend: which `top_n` candidates are returned when there are more than `top_n` depends on that order. The contract fixes their number and that they are candidates, not which ones.
- Text.Lower: models `str.lower()` on ASCII letters only. Other Unicode case mappings (some of which change the length of a string) are not modelled.
- Integer width: quantities, their per-(invoice, description) sums at line 16 and the basket cells are unbounded integers. pandas sums `int64` values and wraps silently past 2^63, and after `unstack`/`fillna` the cells are `float64`, exact only below 2^53. The model assumes every quantity and every such sum stays inside those ranges; a wrapped or rounded sum could make `encode_units` (lines 20-21) disagree with `PresenceMeansPurchased`.
- Missing values: rows whose description, invoice or quantity is missing (NaN), which pandas' group-by drops and comparisons reject, are not modelled. Every record has a description and an integer quantity.
- Tables.Where: its contract states membership and, through `WhereCounts`, multiplicities. It does not state that row order is kept, since no later step depends on that order.
- The example call at lines 67-70 is not modelled beyond `RecommendDefault`, since it only prints.
