# Retail customer segmentation and recommendations, modelled in Dafny

The system reads a table of online-retail invoice lines and runs five steps:

1. It cleans the table.
2. It aggregates it into one feature row per customer.
3. It sets aside the customers an isolation forest marks as outliers.
4. It clusters the remaining customers with k-means into three segments and renames the segment labels.
5. It recommends to every clustered customer up to three of their segment's ten best-selling products that the customer has not bought yet, and joins the recommendations back to the customer table.

The same pipeline exists twice:
- `recomendation_system.py` writes it as the class `RecommendationSystem`, whose stage methods overwrite the object's fields.
- `ver1.py` writes it as free functions over frames passed in and returned.

This project models the discrete core of both versions. Each source concept has its own module:

| module (file) | models |
|---|---|
| `Transactions` (`transactions.dfy`) | the raw and cleaned rows, and Python's `str.isdigit`, `str.upper` and the date accessors |
| `Cleaning` (`cleaning.dfy`) | `clean_data` as a chain of row filters and column rewrites |
| `Features` (`features.dfy`) | the discrete columns of `feature_engineer` |
| `Segmentation` (`segmentation.dfy`) | the inlier/outlier split of `fix_outlier` and the label renaming of `kmeans_clustering` |
| `Products` (`products.dfy`) | the merge with the cluster column and the per-cluster top-ten list |
| `Recommender` (`recommender.dfy`) | the two nested recommendation loops as methods with invariants, and the right merge that builds the output frame |
| `Pipeline` (`pipeline.dfy`) | the class, with its fields and stage methods |
| `Ver1` (`ver1.dfy`) | the free-function version, including its `ZeroDivisionError` |
| `Seqs`, `Ordering` (`seqs.dfy`, `ordering.dfy`) | the generic pandas-like operations both versions rely on: boolean-mask filtering, `drop_duplicates`, `head`, group sizes (`groupby().size()`) with `idxmax`, and the sorting of `groupby` keys |

Dates are seconds since 1970-01-01, so the invoice day, weekday and hour are whole-number arithmetic.

The isolation-forest scores and the k-means labels are inputs, because they come from fitted models. The properties proved are listed below.

Behaviour the model follows from the code:
- The favourite weekday and hour are the smallest value among the most frequent ones. This is what `idxmax` over a key-sorted group gives.
- Service descriptions are compared exactly, before upper-casing.
- `drop_duplicates` runs before the descriptions are upper-cased. The cleaned table can therefore hold two identical rows, which the model keeps (see `Cleaning.CleanDistinct`).
- The label "remapping" is the fixed rotation 0→1, 1→2, 2→0. The frequency-based mapping is computed and then discarded.
- A customer with a single invoice line has no day gap. The inner merge with the average-gap table therefore drops that customer from the customer table.
- Building the final frame pads short recommendation rows with missing values. It fails only when the recommendation list is non-empty and every recommendation in it has fewer than three picks, so that no row reaches the eight named columns. It also fails when the merged frame has fewer than ten rows, because `sample(10)` cannot draw them.

## Model

| member | source | states |
|---|---|---|
| Seqs.Filter | recomendation_system.py:51 | boolean-mask row selection keeps exactly the rows that satisfy the mask, never adds a row, and every kept row satisfies it |
| Seqs.FilterCount | recomendation_system.py:51 | each row that satisfies the mask keeps its number of copies, and every other row has none |
| Seqs.FilterPositions | recomendation_system.py:51 | the kept rows occur in the input at strictly increasing positions, so selection keeps row order |
| Seqs.FilterDistinct | recomendation_system.py:51 | selecting from a duplicate-free frame gives a duplicate-free frame |
| Seqs.FilterAppend | recomendation_system.py:51 | filtering a concatenation is the concatenation of the filtered parts |
| Seqs.FilterOrdered | recomendation_system.py:339 | selecting rows from a sorted frame leaves it sorted |
| Seqs.Take | recomendation_system.py:349 | `head(n)` is a prefix of the frame with `min(n, len)` rows |
| Seqs.TakeFilterBest | recomendation_system.py:348-349 | the first n matching rows of a sorted frame are sorted and match; any matching row left out ranks behind all of them, and was left out only because n rows were taken |
| Seqs.DropDuplicates | recomendation_system.py:39 | `drop_duplicates` keeps every row of the input, adds none, leaves no two identical rows, and keeps them in the order of their first occurrence |
| Seqs.DropDuplicatesPositions | recomendation_system.py:39 | the rows `drop_duplicates` keeps are the first occurrences, taken at strictly increasing positions of its input |
| Seqs.DropDuplicatesOfSorted | recomendation_system.py:338 | `unique()` of a column sorted ascending lists its values strictly ascending |
| Seqs.CountRepeat | recomendation_system.py:39 | a row occurs at least twice exactly when it sits at two different positions |
| Seqs.Column | recomendation_system.py:122 | deriving a column gives one value per row, computed from that row |
| Seqs.ColumnAppend | recomendation_system.py:122 | a derived column of a concatenation is the concatenation of the derived columns |
| Seqs.CountColumn | recomendation_system.py:136 | the number of times a value occurs in a derived column is the size of the group of rows with that value |
| Seqs.Values | recomendation_system.py:91 | `nunique` counts a set of the column's values: exactly the values present, at least one for a non-empty frame and at most one per row |
| Seqs.ValuesAppend | recomendation_system.py:91 | the values of a concatenation are the union of the values of the parts |
| Seqs.Count | recomendation_system.py:136 | a group size is bounded by the frame and is positive exactly when the value occurs |
| Seqs.ArgMaxCount | recomendation_system.py:137 | `idxmax` over group sizes picks a key with the largest count, and the first such key |
| Seqs.MostFrequent | recomendation_system.py:136-141 | over the keys 0..bound-1 in order, the value picked occurs in the column, no value occurs more often, and every smaller value occurs strictly less often |
| Ordering.IntLessIsStrictTotal | recomendation_system.py:329 | integer order on group keys is a strict total order |
| Ordering.StrLessIrreflexive | recomendation_system.py:329 | no string sorts before itself |
| Ordering.StrLessTransitive | recomendation_system.py:329 | lexicographic string order is transitive |
| Ordering.StrLessTotal | recomendation_system.py:329 | two different strings are always ordered one way or the other |
| Ordering.StrLessIsStrictTotal | recomendation_system.py:329 | lexicographic string order on stock codes and descriptions is a strict total order |
| Ordering.Insert | recomendation_system.py:330 | inserting a row adds exactly that row, as a multiset when it is new |
| Ordering.InsertOrdered | recomendation_system.py:330 | inserting into a sorted sequence keeps it sorted |
| Ordering.OrderedPositions | recomendation_system.py:330 | in a sequence sorted by a strict order, a row that sorts before another sits at an earlier position |
| Ordering.SortDistinctFacts | recomendation_system.py:329 | `SortDistinct`, the key order of a `groupby` result, is sorted, holds each key once and exactly the keys present, and is a permutation of a duplicate-free input |
| Transactions.InvoiceDay | recomendation_system.py:72 | `dt.date` is the day whose 86400 seconds contain the timestamp |
| Transactions.DayOfWeek | recomendation_system.py:122 | `dt.dayofweek` lies in 0..6 and advances with the invoice day: the day number minus the weekday is 4 modulo 7, so day 0 (1970-01-01) is a Thursday, with Monday as 0 |
| Transactions.DayOfWeekNextDay | recomendation_system.py:122 | the weekday of the following day is the next weekday, wrapping from Sunday to Monday |
| Transactions.Hour | recomendation_system.py:123 | `dt.hour` lies in 0..23 and is the hour of the invoice day that contains the timestamp |
| Transactions.DigitCount | recomendation_system.py:48 | the number of `isdigit` characters in a code (`IsDigit`: the ASCII digits and the Latin-1 superscripts one to three) is at most its length, and is zero exactly when no character is a digit |
| Transactions.UpperChar | recomendation_system.py:58 | upper-casing one ISO-8859-1 character gives one or two characters, none of them a lower-case letter with an upper-case form (`IsLowerLetter`: `a`-`z`, the micro sign, sharp s, U+E0-U+FF except U+F7); it changes exactly those letters, and leaves the upper-case letters (ASCII and U+C0-U+DE except U+D7), digits and spaces as they are |
| Transactions.Upper | recomendation_system.py:58 | upper-casing never shortens a string |
| Transactions.UpperAppend | recomendation_system.py:58 | upper-casing works character by character over a concatenation |
| Transactions.UpperOfFixedChars | recomendation_system.py:58 | a string of characters that upper-casing fixes is left unchanged |
| Transactions.IsUpperIffNoLowerLetter | recomendation_system.py:58 | a string is left unchanged by upper-casing exactly when it holds no lower-case letter that has an upper-case form |
| Transactions.UpperIdempotent | recomendation_system.py:58 | every upper-cased description is left unchanged by upper-casing again |
| Cleaning.DropMissing | recomendation_system.py:36 | the kept rows are exactly those with both a customer id and a description |
| Cleaning.StatusOf | recomendation_system.py:42 | an invoice is Cancelled exactly when its number starts with "C" |
| Cleaning.WithStatusInjective | recomendation_system.py:42 | adding the status column to two complete rows gives the same row exactly when the rows are the same |
| Cleaning.AddStatus | recomendation_system.py:42 | one output row per input row; row i is raw row i with the status column added, so order and repeats are kept; the status matches the invoice prefix, and duplicate-free input stays duplicate-free |
| Cleaning.UniqueStockCodes | recomendation_system.py:45 | `unique()` lists each stock code of the table exactly once |
| Cleaning.AnomalousStockCodes | recomendation_system.py:48 | the anomalous codes are exactly the table's codes with zero or one digit |
| Cleaning.DropAnomalousStockCodes | recomendation_system.py:51 | the kept rows are exactly those whose stock code has at least two digits, with no duplicates when the input had none |
| Cleaning.CleanThroughStockCodes | recomendation_system.py:36-51 | after the first four steps every row has a code with at least two digits and a status that matches its invoice, and no two rows are identical |
| Cleaning.DropServiceRows | recomendation_system.py:53-55 | the kept rows are exactly those whose description is not one of the two service descriptions, with no duplicates when the input had none |
| Cleaning.UppercaseDescriptions | recomendation_system.py:58 | same rows in the same order; only the description changes, to its upper-case form, which is stable under upper-casing |
| Cleaning.KeepPositivePrices | recomendation_system.py:61 | the kept rows are exactly those with a positive unit price |
| Cleaning.Clean | recomendation_system.py:34-64 | every cleaned row has a code with at least two digits, an upper-case description (no ISO-8859-1 lower-case letter with an upper-case form, by `Transactions.IsUpperIffNoLowerLetter`), a positive price and a consistent status |
| Cleaning.StatusStageOrigin | recomendation_system.py:36-42 | every row after the status step is a raw row with a customer id and a description, with the status column added |
| Cleaning.StockCodeStageKeeps | recomendation_system.py:45-51 | the stock-code step only removes rows: each row it keeps was in its input and has a code with at least two digits |
| Cleaning.StockCodeStageOrigin | recomendation_system.py:36-51 | every row after the stock-code step comes from a complete raw row whose code has at least two digits |
| Cleaning.CleanKeepsOrder | recomendation_system.py:34-64 | cleaning keeps the order of the file: the cleaned rows are the cleaned forms of kept raw rows taken at strictly increasing raw positions, so the per-customer day gaps follow file order |
| Cleaning.CleanedRowOrigin | recomendation_system.py:34-64 | every cleaned row is the cleaned form of a raw row that passes every filter |
| Cleaning.KeptRowSurvives | recomendation_system.py:34-64 | every raw row that passes every filter appears, cleaned, in the result |
| Cleaning.CleanMembership | recomendation_system.py:34-64 | the cleaned table is exactly the cleaned forms of the raw rows that pass every filter |
| Cleaning.CleanRepeats | recomendation_system.py:39-58 | a cleaned row occurs twice or more exactly when two different kept raw rows clean to it |
| Cleaning.CleanDistinct | recomendation_system.py:39-58 | the cleaned table is free of duplicates exactly when no two different kept raw rows clean to the same row |
| Cleaning.UppercaseRevivesDuplicates | recomendation_system.py:39-58 | two raw rows differing only in the case of their description survive `drop_duplicates` and leave two identical rows in the cleaned table |
| Features.CustomerRows | recomendation_system.py:75 | a customer's group is exactly the rows with that customer id |
| Features.MaxDay | recomendation_system.py:78 | the most recent invoice day is at least every row's day and is some row's day |
| Features.DaysSinceLastPurchase | recomendation_system.py:75-85 | recency is non-negative; no row of the customer is more recent than recency allows, and one row meets it exactly |
| Features.Invoices | recomendation_system.py:91 | the invoices counted by `nunique` are exactly the invoice numbers present: at least one for a non-empty group, at most one per row |
| Features.StockCodes | recomendation_system.py:115 | the products counted by `nunique` are exactly the stock codes present: at least one for a non-empty group, at most one per row |
| Features.SumQuantity | recomendation_system.py:95 | the total quantity is non-negative when no line is negative and non-positive when no line is positive |
| Features.SumQuantityAppend | recomendation_system.py:95 | the total quantity of two groups of rows is the sum of their totals |
| Features.AggregatesSplit | recomendation_system.py:91-115 | invoices, products and total quantity of a concatenation combine those of the parts, by union or by sum |
| Features.CancelledInvoices | recomendation_system.py:164-165 | the cancelled invoices of a customer are among the customer's invoices |
| Features.CancellationTable | recomendation_system.py:164-166 | the table has an entry for exactly the customers with a cancelled row; each entry is the number of that customer's distinct cancelled invoices, at least one and at most the customer's number of invoices |
| Features.CancelledCustomerBounds | recomendation_system.py:164-165 | a customer with a cancelled row has between one and their total number of invoices cancelled |
| Features.CancellationFrequency | recomendation_system.py:164-176 | the frequency after the left merge and `fillna(0)`, defined from the table, is the number of distinct cancelled invoices, and never exceeds the total number of invoices |
| Features.DaysOfWeek | recomendation_system.py:122 | the weekday column has one entry in 0..6 per row, that row's weekday, and each weekday occurs as often as the rows falling on it |
| Features.Hours | recomendation_system.py:123 | the hour column has one entry in 0..23 per row, that row's hour, and each hour occurs as often as the rows in it |
| Features.Countries | recomendation_system.py:149 | the country column has one entry per row, and each country occurs as often as the rows from it |
| Features.FavoriteDayOfWeek | recomendation_system.py:136-137 | the favourite day is a weekday the customer shopped on, no weekday occurs more often, and every earlier weekday occurs strictly less often |
| Features.FavoriteHour | recomendation_system.py:140-141 | the same for the hour, in 0..23 |
| Features.IsUK | recomendation_system.py:149-155 | the flag is 0 or 1; it is 1 only if the United Kingdom is a most frequent country, and it is 1 whenever the United Kingdom is strictly the most frequent |
| Features.DayGaps | recomendation_system.py:127-130 | one gap per consecutive pair of the customer's rows, and each gap carries one day to the next |
| Features.DayGapsTelescope | recomendation_system.py:127-132 | the gaps sum to the span from the customer's first row to the last |
| Features.CustomerFeaturesOf | recomendation_system.py:75-176 | a customer's row holds, column by column, the aggregates of the customer's group: recency (`DaysSinceLastPurchase`), distinct invoices, total quantity, distinct products, day gaps, favourite weekday and hour, the UK flag and the cancellation count; hence non-negative recency, at least one invoice and one product, cancellations within invoices, at least one gap, a valid day and hour, and a 0/1 UK flag |
| Features.CustomerIds | recomendation_system.py:75 | the groupby keys are ascending and are exactly the customer ids present |
| Features.GapCustomers | recomendation_system.py:144 | the customers kept by the inner merge, ascending, are exactly those with at least two rows |
| Features.FeatureTable | recomendation_system.py:144-146 | the customer table has one row per kept customer, in the same order, each that customer's aggregate |
| Features.FeatureTableFacts | recomendation_system.py:144-146 | the customer table is strictly ascending by id; each row is its customer's aggregate; every customer with a gap has a row |
| Segmentation.Inliers | recomendation_system.py:229 | every kept customer is a row of the table scored as an inlier |
| Segmentation.Outliers | recomendation_system.py:226 | every set-aside customer is a row of the table scored -1 |
| Segmentation.PartitionIsComplete | recomendation_system.py:220-237 | inliers and outliers together are the customer table, as a multiset |
| Segmentation.PartitionPlacesEach | recomendation_system.py:223-229 | each customer lands on the side its score says |
| Segmentation.PartitionKeepsOrder | recomendation_system.py:226-235 | both sides keep the ascending id order of the customer table |
| Segmentation.PartitionSeparatesIds | recomendation_system.py:226-229 | with distinct ids, no customer is both an inlier and an outlier |
| Segmentation.InvertItems | recomendation_system.py:300 | the inverted dictionary's keys are exactly the original values, and each maps to the key of the last item holding it, as a later entry of a dict comprehension overwrites an earlier one |
| Segmentation.InvertItemsOfDistinctValues | recomendation_system.py:300 | when no value repeats, inverting sends each value back to its own key |
| Segmentation.LabelMapping | recomendation_system.py:300 | the mapping is defined on labels 0..2 and sends 0 to 1, 1 to 2 and 2 to 0 |
| Segmentation.LabelMappingIsBijection | recomendation_system.py:300 | the mapping is one-to-one onto {0, 1, 2} |
| Segmentation.RemapLabels | recomendation_system.py:303 | relabelling succeeds exactly when every label is in 0..2 (otherwise the dictionary lookup raises), and then rotates every label |
| Segmentation.RemapKeepsClusterSizes | recomendation_system.py:303 | relabelling renames clusters without changing their sizes |
| Segmentation.CountRotated | recomendation_system.py:303 | a rotated label column has as many of label k+1 as the original has of k |
| Segmentation.ClusterCustomers | recomendation_system.py:303-306 | the cluster column exists exactly when every label is mappable, and then each customer keeps its features, in table order, with its own rotated label |
| Products.DropOutlierRows | recomendation_system.py:319-320 | the kept transactions are exactly those of customers who are not among the outliers' ids |
| Products.MatchClusters | recomendation_system.py:326 | one transaction's inner-merge rows carry it with exactly the clusters of customers sharing its id; with distinct ids there is one such row when its customer is clustered and none otherwise |
| Products.MergeClusters | recomendation_system.py:326 | the inner merge holds exactly the transactions tagged with a cluster of their customer; with distinct ids its rows are the clustered customers' transactions, once each and in order |
| Products.MergedRows | recomendation_system.py:319-326 | `merged_data` holds exactly the non-outlier transactions, each tagged with its customer's cluster; with distinct ids, once each and in order |
| Products.KeyLessIsStrictTotal | recomendation_system.py:329 | the (cluster, stock code, description) group key order is a strict total order |
| Products.ProductKeyLessIsStrictPartial | recomendation_system.py:329 | ordering products by group key is irreflexive and transitive |
| Products.QuantityOfGroup | recomendation_system.py:329 | a product's quantity is the total quantity of the merged rows of its group |
| Products.BestSellingProducts | recomendation_system.py:329 | the products are strictly sorted by group key, so each key comes once; each carries the summed quantity of its group; every product's key is the key of some merged row, and every merged row's key is the key of some product |
| Products.RankLessIsStrictTotal | recomendation_system.py:330 | the ranking order (cluster ascending, then quantity descending, then group key, which is the order the stable sort keeps for ties) is a strict total order |
| Products.RankingIsPermutation | recomendation_system.py:330 | `RankedProducts`, the sorted frame, is a permutation of the grouped frame, with clusters ascending and quantities descending within a cluster |
| Products.RankingKeepsTieOrder | recomendation_system.py:330 | the sort is stable: products with equal cluster and quantity keep their groupby order |
| Products.InCluster | recomendation_system.py:339 | the selection holds exactly the products of that cluster |
| Products.InClusterAppend | recomendation_system.py:339 | selecting a cluster distributes over concatenation |
| Products.HeadPerCluster | recomendation_system.py:331 | `groupby('cluster').head(n)` keeps only products of the input |
| Products.HeadStepSameCluster | recomendation_system.py:331 | appending a product keeps head(n) of its own cluster equal to the first n of that cluster |
| Products.HeadStepOtherCluster | recomendation_system.py:331 | appending a product leaves head(n) of every other cluster as it was |
| Products.HeadPerClusterTakes | recomendation_system.py:331 | within each cluster, `groupby('cluster').head(n)`, which builds `TopProductsPerCluster`, is the first n products of that cluster |
| Products.HeadPerClusterAscending | recomendation_system.py:331 | `groupby('cluster').head(n)` of a list sorted by cluster stays sorted by cluster |
| Products.TopClustersAscending | recomendation_system.py:330-331 | the top list `TopProductsPerCluster` is sorted by cluster, as the ranking it is cut from |
| Products.TopProducts | recomendation_system.py:339 | a cluster's top list has at most ten products, all of that cluster |
| Products.TopProductsAreBestSellers | recomendation_system.py:329-339 | a cluster's top list is ranked, by descending quantity, drawn from the best sellers, and outsells every product of the cluster left out, which are left out only when ten were taken |
| Products.ClusterTopOfRanking | recomendation_system.py:331-339 | the same, for the first ten products of a cluster in any ranked list |
| Products.ClusterOrder | recomendation_system.py:338 | `unique()` lists each cluster of the top list exactly once, and no other, in the order of first appearance, which is ascending because the top list is sorted by cluster; this fixes the order of the recommendations |
| Recommender.CustomersIn | recomendation_system.py:340 | exactly the ids of the customers in that cluster |
| Recommender.CustomersInTableOrder | recomendation_system.py:340 | with distinct ids, each customer of the cluster comes once, in the order of the clustered table |
| Recommender.Picks | recomendation_system.py:348-349 | at most three picks, all from the top list and none already bought; over a ranked list they are the best unbought ones, and an unbought product is left out only when three were taken |
| Recommender.PicksByQuantity | recomendation_system.py:348-349 | over a ranked list of one cluster's products, the picks come in descending quantity and sold at least as much as every unbought product left out, which is left out only when three were picked |
| Recommender.Recommend | recomendation_system.py:342-352 | a recommendation is for the customer and cluster it was made for and holds at most three products, all of that cluster |
| Recommender.RecommendPicks | recomendation_system.py:344-352 | a customer's recommendation holds only top products of the cluster that the customer did not buy in it (`Purchased`, from `customer_purchases`), in descending quantity; any unbought top product left out sold no more than every pick, and was left out only because three were picked |
| Recommender.ForCustomers | recomendation_system.py:342-352 | one recommendation per customer of the cluster |
| Recommender.ForCustomersStep | recomendation_system.py:342-352 | serving one more customer appends exactly that customer's recommendation |
| Recommender.RecommendCluster | recomendation_system.py:342-352 | the inner loop over a cluster's customers produces the list `ForCustomers` defines: one recommendation each, in order |
| Recommender.RecommendClusters | recomendation_system.py:337-352 | the outer loop over clusters produces the list `ForClusters` defines: the recommendations of every cluster, cluster after cluster |
| Recommender.RecommendationSystem | recomendation_system.py:318-352 | steps 1 to 6 produce exactly `AllRecommendations`, the recommendation list of the pipeline's definition |
| Recommender.ForCustomersMembers | recomendation_system.py:342-352 | a cluster's recommendations are exactly those of its customers |
| Recommender.ForClustersMembers | recomendation_system.py:337-352 | every recommendation belongs to a listed cluster and one of its customers, and each such pair is served |
| Recommender.RecommendationFacts | recomendation_system.py:314-352 | each recommendation is for a clustered customer: at most three picks, from the cluster's top list, not yet bought, by descending quantity, and outselling every unbought top product left out, which is left out only when three were picked |
| Recommender.EveryCustomerServed | recomendation_system.py:337-352 | every clustered customer whose cluster has a top product gets a recommendation |
| Recommender.JoinOne | recomendation_system.py:357 | the right merge of one recommendation gives at least one row; every row carries the recommendation, and any features it has belong to a matching customer |
| Recommender.RightMerge | recomendation_system.py:357 | the right merge has at least one row per recommendation; every recommendation is carried by a row and every row carries a recommendation |
| Recommender.RecommendationOutput | recomendation_system.py:355-360 | the frame fails on a column-count mismatch exactly when the recommendation list is non-empty and either some recommendation has more than three picks or every one has fewer than three; when built, it has at least ten rows and at least as many rows as recommendations, and carries only the features of matching customers |
| Recommender.RecommendationFrame | recomendation_system.py:306-360 | the cleaned customers with their cluster labels, run through steps 1 to 7, give the output frame or its failure |
| Recommender.MaxPicks | recomendation_system.py:352-356 | the widest recommendation row: no row is wider, and one row is that wide |
| Recommender.RightMergeRows | recomendation_system.py:357 | every merged row with features carries those of a customer with the same id and cluster |
| Recommender.RightMergeFindsEachCustomer | recomendation_system.py:357 | with distinct ids, each recommendation of a clustered customer yields exactly one row, in order, carrying that customer's features |
| Recommender.JoinOneSingle | recomendation_system.py:357 | with distinct ids, a recommendation of a clustered customer joins exactly one row, with that customer's features |
| Recommender.RecommendationsJoinOwnCustomers | recomendation_system.py:337-357 | with distinct ids, the output frame has one row per recommendation, each joined to its own customer |
| Recommender.PipelineJoinsOwnCustomers | recomendation_system.py:214-357 | over an id-ascending customer table, the split, relabelling, recommendation and merge steps in sequence join every recommendation to its own customer |
| Recommender.ClusteredIdsDistinct | recomendation_system.py:306 | attaching a label column to an id-ascending table keeps the ids distinct |
| Pipeline.RecommendationSystem.constructor | recomendation_system.py:20-28 | a new system stores the path and holds no frame yet |
| Pipeline.RecommendationSystem.LoadData | recomendation_system.py:30-31 | loading replaces `df` with the file's rows and changes nothing else |
| Pipeline.RecommendationSystem.CleanData | recomendation_system.py:34-64 | a loaded frame becomes the cleaned table; without one the stage reports a missing input and changes nothing |
| Pipeline.RecommendationSystem.FeatureEngineer | recomendation_system.py:67-211 | the customer table becomes the feature table of the cleaned rows; without a cleaned table the model reports a missing input and keeps the old customer table, where the source fails part-way (see the `Pipeline.RecommendationSystem.FeatureEngineer` line under Left out) |
| Pipeline.RecommendationSystem.FixOutlier | recomendation_system.py:214-237 | the cleaned and outlier tables become the inlier and outlier sides of the customer table, and the object stays id-ordered |
| Pipeline.RecommendationSystem.KMeansClustering | recomendation_system.py:284-311 | the cluster column becomes the rotated labels; an unmappable label raises and leaves it unchanged |
| Pipeline.RecommendationStage | recomendation_system.py:314-362 | the stage reports a missing input exactly when the cleaned table, the outliers or the cluster column is absent; a column-count failure exactly when the recommendation list is non-empty and every entry has fewer than three picks or some entry more; a built frame has at least ten rows, at least one per recommendation, and each row that found a customer carries that customer's features, id and cluster |
| Pipeline.BuildStage | recomendation_system.py:314-360 | the steps of the stage, run on the fields' values, give what `RecommendationStage` defines |
| Pipeline.RecommendationSystem.RecommendationSystem | recomendation_system.py:314-362 | the stored frame becomes the one `RecommendationStage` builds from the fields; if the stage fails, it reports why and nothing is stored; no other field changes |
| Pipeline.RecommendationSystem.Store | recomendation_system.py:362 | a built frame replaces the stored one; a failure is reported and leaves it as it was |
| Ver1.ServiceRows | ver1.py:44 | exactly the rows with a service description |
| Ver1.ServiceRelatedPercentage | ver1.py:42-44 | the share is undefined (division by zero) exactly on an empty frame; otherwise it lies in 0..100 and is zero exactly when no row is a service row |
| Ver1.PercentageBounds | ver1.py:44 | a share of k out of n rows, as a percentage, lies in 0..100 and is zero exactly when k is zero |
| Ver1.CleanData | ver1.py:20-57 | `ZeroDivisionError` exactly when no row survives the stock-code step; otherwise the same cleaned table as the class |
| Ver1.CleanDataFailsWithoutCompleteRows | ver1.py:20-57 | a file in which no row has a customer id raises `ZeroDivisionError` |
| Ver1.FeatureEngineer | ver1.py:60-202 | returns the table unchanged with an id-ascending customer table holding each customer with a gap exactly once |
| Ver1.FixOutlier | ver1.py:205-227 | the two returned tables split the customer table by score, each keeping id order |
| Ver1.KMeansClustering | ver1.py:271-295 | fails exactly on a label outside 0..2; otherwise each customer gets its rotated label |
| Ver1.RecommendationSystem | ver1.py:298-343 | returns the output frame the recommendations build, or its failure |

## Left out

- Floating-point features are not modelled: Total_Spend, Average_Transaction_Value, the average of the day gaps, the monthly spending mean and standard deviation, and the spending trend. The model keeps the gap list the average is taken over and leaves out the arithmetic on prices. Prices enter only through the `> 0` filter.
- `feature_scale` and `dimensionality_reduction` are not modelled. They are floating-point transformations with no discrete property to state.
- The isolation-forest and k-means fits are not modelled. Their outputs, the -1/1 scores and the 0..2 labels, are inputs to the stages.
- Pipeline.RecommendationSystem.FixOutlier, Ver1.FixOutlier: succeed on an empty customer table. The source raises `ValueError` there, because `IsolationForest.fit_predict` (`recomendation_system.py:220`, `ver1.py:210`) cannot fit zero samples.
- Pipeline.RecommendationSystem.KMeansClustering, Ver1.KMeansClustering: succeed on any number of inliers. The source raises `ValueError` when there are too few: `PCA(n_components=6)` (`recomendation_system.py:271`, `ver1.py:257`) needs at least six, and `KMeans(n_clusters=3)` (`recomendation_system.py:289-290`, `ver1.py:273-274`) needs at least three. These fits, and the scaling before them, are outside the model.
- Reading and writing files is not modelled. `load_data` receives the rows it would read; `show_output`, `generate_output_csv` and `to_csv` are left out.
- `pd.to_datetime` parsing is not modelled. Invoice dates are whole seconds since 1970-01-01 in the model.
- The frequency-based label mapping of `kmeans_clustering` is not modelled. The code overwrites it before use.
- The Cancellation_Rate column is not modelled. `ver1.py:163` computes it as a floating-point ratio that divides two frames aligned by row index rather than by customer; `recomendation_system.py:175` has it commented out.
- The `cluster` column that `kmeans_clustering` adds to the PCA frame is not modelled. Only the numeric features feed it, and those are outside the model.
- The Outlier_Scores and Is_Outlier columns that `fix_outlier` leaves on `customer_data` are not modelled. Later stages never read them.
- The casts of CustomerID to float are not modelled. Ids are integers throughout.
- The padding of short recommendation rows with missing values is not modelled as separate cells: a row keeps the picks it has.
- `sample(10, random_state=0)` is not modelled; only the error it raises on a frame of fewer than ten rows is kept.
- Cleaning.Clean: its contract does not promise a duplicate-free table, because the source does not give one. `drop_duplicates` runs before `str.upper`, so two rows that differ only in the case of their description both survive and become identical. `Cleaning.CleanRepeats` and `Cleaning.CleanDistinct` state exactly when this happens, and `Cleaning.UppercaseRevivesDuplicates` exhibits it.
- Pipeline.RecommendationSystem.CleanData: calling it on an already cleaned frame reports a missing input. The source would clean the cleaned frame again.
- Pipeline.RecommendationSystem.FeatureEngineer: on a frame that was loaded but not cleaned, it reports a missing input and changes nothing. The source first overwrites `customer_data` at `recomendation_system.py:75` and then raises `KeyError` on the missing Transaction_Status column at `recomendation_system.py:164`, leaving a partial customer table behind.
- Pipeline.RecommendationSystem.RecommendationSystem: on a frame that was loaded but not cleaned, it reports a missing input. The source runs `recomendation_system.py:319-360` on the raw rows instead; the model's recommendation steps are defined over cleaned rows only.
- Features.IsUK: states the value only when the United Kingdom is strictly the most frequent country or not a most frequent one. The country pandas picks among tied countries depends on its unstable sort, which the model leaves open.
- Ver1.ServiceRelatedPercentage: the percentage is an exact real, not a floating-point number. It is computed and never used.
- Ver1.RecommendationSystem: takes the module-level `df` as an argument and returns the frame it would write to `output.csv`. `ver1.py` never calls this function.
- `install_requirements.py` is not part of this model. It installs packages.
