/** Steps 1 to 4 of `recommendation_system`: the transactions of the
    clustered (inlier) customers tagged with their cluster, the quantity sold
    per (cluster, stock code, description), that table ranked by cluster
    and then by quantity, and the first ten products of every cluster. */
module Products {
  import opened Seqs
  import opened Ordering
  import opened Transactions
  import opened Features
  import opened Segmentation

  /** A transaction joined with its customer's `cluster`. */
  datatype TaggedRow = TaggedRow(row: Row, cluster: int)

  /** `outliers_data['CustomerID'].unique()`. */
  function OutlierIds(outliers: seq<CustomerFeatures>): (ids: set<int>)
    ensures forall id :: id in ids <==> exists f :: f in outliers && f.customerId == id
  {
    set f | f in outliers :: f.customerId
  }

  /** `df[~df['CustomerID'].isin(outlier_customer_ids)]`. */
  function DropOutlierRows(rows: seq<Row>, outliers: seq<CustomerFeatures>): (r: seq<Row>)
    ensures forall x :: x in r <==> x in rows && x.customerId !in OutlierIds(outliers)
  {
    var ids := OutlierIds(outliers);
    Filter(rows, (x: Row) => x.customerId !in ids)
  }

  function RowOf(t: TaggedRow): Row
  {
    t.row
  }

  /** The test "this transaction's customer is in the clustered table". */
  function IsClustered(clustered: seq<ClusteredCustomer>): Row -> bool
  {
    (x: Row) => exists c :: c in clustered && c.features.customerId == x.customerId
  }

  /** The rows the inner merge makes of one transaction: one per clustered
      customer with the same id, in table order; so exactly one when the
      customer is clustered and ids are unique, none when it is not. */
  function MatchClusters(x: Row, clustered: seq<ClusteredCustomer>): (r: seq<TaggedRow>)
    ensures forall t :: t in r <==> t.row == x && exists c :: c in clustered && c.features.customerId == x.customerId && c.cluster == t.cluster
    ensures UniqueIds(clustered) ==>
      |r| == if exists c :: c in clustered && c.features.customerId == x.customerId then 1 else 0
  {
    if clustered == [] then []
    else
      var tail := clustered[1..];
      var rest := MatchClusters(x, tail);
      assert forall c :: c in clustered <==> c == clustered[0] || c in tail;
      assert UniqueIds(clustered) ==> UniqueIds(tail) && forall c :: c in tail ==> c.features.customerId != clustered[0].features.customerId by {
        if UniqueIds(clustered) {
          forall c | c in tail ensures c.features.customerId != clustered[0].features.customerId {
            var k :| 0 <= k < |tail| && tail[k] == c;
            assert clustered[k + 1] == c;
          }
          forall i, j | 0 <= i < j < |tail| ensures tail[i].features.customerId != tail[j].features.customerId {
            assert tail[i] == clustered[i + 1] && tail[j] == clustered[j + 1];
          }
        }
      }
      if clustered[0].features.customerId == x.customerId then [TaggedRow(x, clustered[0].cluster)] + rest
      else rest
  }

  /** `df_filtered.merge(customer_data_cleaned[['CustomerID', 'cluster']],
      on='CustomerID', how='inner')`: the left rows in order, each joined to
      every matching customer. With unique customer ids this keeps every
      left row whose customer is clustered exactly once, in order. */
  function MergeClusters(rows: seq<Row>, clustered: seq<ClusteredCustomer>): (r: seq<TaggedRow>)
    ensures forall t :: t in r <==> t.row in rows && exists c :: c in clustered && c.features.customerId == t.row.customerId && c.cluster == t.cluster
    ensures UniqueIds(clustered) ==> Column(r, RowOf) == Filter(rows, IsClustered(clustered))
  {
    if rows == [] then []
    else
      var head := MatchClusters(rows[0], clustered);
      var rest := MergeClusters(rows[1..], clustered);
      assert forall x :: x in rows <==> x == rows[0] || x in rows[1..];
      assert UniqueIds(clustered) ==> Column(head + rest, RowOf) == Filter(rows, IsClustered(clustered)) by {
        if UniqueIds(clustered) {
          ColumnAppend(head, rest, RowOf);
          if IsClustered(clustered)(rows[0]) {
            assert head[0] in head;
            assert Column(head, RowOf) == [rows[0]];
          } else {
            assert Column(head, RowOf) == [];
          }
        }
      }
      head + rest
  }

  /** `merged_data`: with unique customer ids, the transactions of the
      clustered customers that are not outliers, each once, in order. */
  function MergedRows(rows: seq<Row>, outliers: seq<CustomerFeatures>, clustered: seq<ClusteredCustomer>): (r: seq<TaggedRow>)
    ensures forall t :: t in r <==>
      && t.row in rows
      && t.row.customerId !in OutlierIds(outliers)
      && exists c :: c in clustered && c.features.customerId == t.row.customerId && c.cluster == t.cluster
    ensures UniqueIds(clustered) ==> Column(r, RowOf) == Filter(DropOutlierRows(rows, outliers), IsClustered(clustered))
  {
    MergeClusters(DropOutlierRows(rows, outliers), clustered)
  }

  /** The group key of `groupby(['cluster', 'StockCode', 'Description'])`. */
  datatype ProductKey = ProductKey(cluster: int, stockCode: string, description: string)

  /** One row of `best_selling_products`. */
  datatype Product = Product(cluster: int, stockCode: string, description: string, quantity: int)

  function KeyOf(t: TaggedRow): ProductKey
  {
    ProductKey(t.cluster, t.row.stockCode, t.row.description)
  }

  function KeyOfProduct(p: Product): ProductKey
  {
    ProductKey(p.cluster, p.stockCode, p.description)
  }

  /** The order of the group keys: by cluster, then stock code, then
      description. */
  predicate KeyLess(a: ProductKey, b: ProductKey)
  {
    || a.cluster < b.cluster
    || (a.cluster == b.cluster && StrLess(a.stockCode, b.stockCode))
    || (a.cluster == b.cluster && a.stockCode == b.stockCode && StrLess(a.description, b.description))
  }

  lemma KeyLessIsStrictTotal()
    ensures StrictTotalOrder(KeyLess)
  {
    StrLessIsStrictTotal();
  }

  predicate ProductKeyLess(a: Product, b: Product)
  {
    KeyLess(KeyOfProduct(a), KeyOfProduct(b))
  }

  /** Products are ordered by their keys: irreflexive and transitive, but
      not total, since two products may share a key. */
  lemma ProductKeyLessIsStrictPartial()
    ensures forall x :: !ProductKeyLess(x, x)
    ensures forall x, y, z :: ProductKeyLess(x, y) && ProductKeyLess(y, z) ==> ProductKeyLess(x, z)
  {
    KeyLessIsStrictTotal();
  }

  /** `Quantity.sum()` over the merged rows of one group. */
  function QuantityOf(merged: seq<TaggedRow>, k: ProductKey): int
  {
    if merged == [] then 0
    else (if KeyOf(merged[0]) == k then merged[0].row.quantity else 0) + QuantityOf(merged[1..], k)
  }

  /** A group's total is `Quantity.sum()` over the merged rows carrying its
      key, the group `groupby` forms. */
  lemma {:induction false} QuantityOfGroup(merged: seq<TaggedRow>, k: ProductKey)
    ensures QuantityOf(merged, k) == SumQuantity(Column(Filter(merged, Matches(KeyOf, k)), RowOf))
  {
    if merged != [] {
      var t := merged[0];
      var tail := merged[1..];
      QuantityOfGroup(tail, k);
      var rest := Filter(tail, Matches(KeyOf, k));
      if KeyOf(t) == k {
        assert Filter(merged, Matches(KeyOf, k)) == [t] + rest;
        ColumnAppend([t], rest, RowOf);
        var col := Column([t] + rest, RowOf);
        assert col == [t.row] + Column(rest, RowOf);
        assert col[1..] == Column(rest, RowOf);
      }
    }
  }

  /** One product per key, carrying the key's summed quantity. */
  function ProductsOfKeys(merged: seq<TaggedRow>, keys: seq<ProductKey>): (r: seq<Product>)
    ensures |r| == |keys|
    ensures forall i :: 0 <= i < |r| ==> KeyOfProduct(r[i]) == keys[i] && r[i].quantity == QuantityOf(merged, keys[i])
  {
    seq(|keys|, i requires 0 <= i < |keys| =>
      Product(keys[i].cluster, keys[i].stockCode, keys[i].description, QuantityOf(merged, keys[i])))
  }

  /** `best_selling_products` before sorting: one product per group, in
      key order, with the group's total quantity. */
  function BestSellingProducts(merged: seq<TaggedRow>): (r: seq<Product>)
    ensures Ordered(r, ProductKeyLess)
    ensures forall p :: p in r ==> p.quantity == QuantityOf(merged, KeyOfProduct(p))
    ensures forall p :: p in r ==> KeyOfProduct(p) in Column(merged, KeyOf)
    ensures forall t :: t in merged ==> KeyOf(t) in Column(r, KeyOfProduct)
  {
    var all := Column(merged, KeyOf);
    var keys := SortDistinct(all, KeyLess);
    assert Ordered(keys, KeyLess) && forall k :: k in keys <==> k in all by {
      KeyLessIsStrictTotal();
      SortDistinctFacts(all, KeyLess);
    }
    var r := ProductsOfKeys(merged, keys);
    assert Column(r, KeyOfProduct) == keys;
    assert Ordered(r, ProductKeyLess) by {
      forall i, j | 0 <= i < j < |r| ensures ProductKeyLess(r[i], r[j]) {
        assert KeyLess(keys[i], keys[j]);
      }
    }
    assert forall p :: p in r ==> p.quantity == QuantityOf(merged, KeyOfProduct(p)) && KeyOfProduct(p) in all by {
      forall p | p in r ensures p.quantity == QuantityOf(merged, KeyOfProduct(p)) && KeyOfProduct(p) in all {
        var i :| 0 <= i < |r| && r[i] == p;
        assert keys[i] in keys;
      }
    }
    assert forall t :: t in merged ==> KeyOf(t) in Column(r, KeyOfProduct) by {
      forall t | t in merged ensures KeyOf(t) in all {
        ColumnHas(merged, KeyOf, t);
      }
    }
    r
  }

  /** The key of `sort_values(by=['cluster', 'Quantity'], ascending=[True,
      False])` applied to the key-ordered table: that sort is stable, so
      products of one cluster with equal quantities keep their key order. */
  predicate RankLess(a: Product, b: Product)
  {
    || a.cluster < b.cluster
    || (a.cluster == b.cluster && a.quantity > b.quantity)
    || (a.cluster == b.cluster && a.quantity == b.quantity && ProductKeyLess(a, b))
  }

  lemma RankLessIsStrictTotal()
    ensures StrictTotalOrder(RankLess)
  {
    KeyLessIsStrictTotal();
  }

  /** The sorted `best_selling_products`. */
  function RankedProducts(best: seq<Product>): seq<Product>
  {
    SortDistinct(best, RankLess)
  }

  /** Ranking a key-ordered table keeps its products and orders them by
      cluster ascending, then quantity descending. */
  lemma RankingIsPermutation(best: seq<Product>)
    requires Ordered(best, ProductKeyLess)
    ensures var ranked := RankedProducts(best);
      && multiset(ranked) == multiset(best)
      && Ordered(ranked, RankLess)
      && (forall i, j :: 0 <= i < j < |ranked| ==>
            ranked[i].cluster < ranked[j].cluster
            || (ranked[i].cluster == ranked[j].cluster && ranked[i].quantity >= ranked[j].quantity))
  {
    var ranked := RankedProducts(best);
    RankLessIsStrictTotal();
    KeyLessIsStrictTotal();
    assert Distinct(best) by {
      forall i, j | 0 <= i < j < |best| ensures best[i] != best[j] {
        assert ProductKeyLess(best[i], best[j]);
      }
    }
    SortDistinctFacts(best, RankLess);
    forall i, j | 0 <= i < j < |ranked|
      ensures ranked[i].cluster < ranked[j].cluster
              || (ranked[i].cluster == ranked[j].cluster && ranked[i].quantity >= ranked[j].quantity)
    {
      assert RankLess(ranked[i], ranked[j]);
    }
  }

  /** Ranking is stable: two products of one cluster with equal quantities
      keep the order they had in the key-ordered table. */
  lemma RankingKeepsTieOrder(best: seq<Product>)
    requires Ordered(best, ProductKeyLess)
    ensures var ranked := RankedProducts(best);
      forall i, j, i', j' ::
        0 <= i < j < |ranked| && 0 <= i' < |best| && 0 <= j' < |best|
        && best[i'] == ranked[i] && best[j'] == ranked[j]
        && ranked[i].cluster == ranked[j].cluster && ranked[i].quantity == ranked[j].quantity
        ==> i' < j'
  {
    var ranked := RankedProducts(best);
    assert Ordered(ranked, RankLess) by {
      RankLessIsStrictTotal();
      SortDistinctFacts(best, RankLess);
    }
    ProductKeyLessIsStrictPartial();
    forall i, j, i', j' |
      && 0 <= i < j < |ranked| && 0 <= i' < |best| && 0 <= j' < |best|
      && best[i'] == ranked[i] && best[j'] == ranked[j]
      && ranked[i].cluster == ranked[j].cluster && ranked[i].quantity == ranked[j].quantity
      ensures i' < j'
    {
      assert RankLess(ranked[i], ranked[j]);
      OrderedPositions(best, ProductKeyLess, i', j');
    }
  }

  /** The test `['cluster'] == c`. */
  function OfCluster(c: int): Product -> bool
  {
    (p: Product) => p.cluster == c
  }

  /** The products of one cluster, in order. */
  function InCluster(s: seq<Product>, c: int): (r: seq<Product>)
    ensures forall p :: p in r <==> p in s && p.cluster == c
  {
    Filter(s, OfCluster(c))
  }

  /** `groupby('cluster').head(n)`: a product stays when fewer than `n`
      products of its cluster come before it. */
  function HeadPerCluster(s: seq<Product>, n: nat): (r: seq<Product>)
    ensures forall p :: p in r ==> p in s
  {
    if s == [] then []
    else
      var init := s[..|s| - 1];
      var last := s[|s| - 1];
      var h := HeadPerCluster(init, n);
      if |InCluster(init, last.cluster)| < n then h + [last] else h
  }

  lemma InClusterAppend(a: seq<Product>, b: seq<Product>, c: int)
    ensures InCluster(a + b, c) == InCluster(a, c) + InCluster(b, c)
  {
    FilterAppend(a, b, OfCluster(c));
  }

  /** One step of `head(n)`: appending a product of cluster `c`. */
  lemma HeadStepSameCluster(init: seq<Product>, last: Product, n: nat)
    requires InCluster(HeadPerCluster(init, n), last.cluster) == Take(InCluster(init, last.cluster), n)
    ensures InCluster(HeadPerCluster(init + [last], n), last.cluster) == Take(InCluster(init + [last], last.cluster), n)
  {
    var c := last.cluster;
    var s := init + [last];
    var h := HeadPerCluster(init, n);
    var fi := InCluster(init, c);
    assert HeadPerCluster(s, n) == if |fi| < n then h + [last] else h by {
      assert s[..|s| - 1] == init && s[|s| - 1] == last;
    }
    assert InCluster(s, c) == fi + [last] by {
      InClusterAppend(init, [last], c);
      assert InCluster([last], c) == [last];
    }
    if |fi| < n {
      assert InCluster(h + [last], c) == InCluster(h, c) + [last] by {
        InClusterAppend(h, [last], c);
        assert InCluster([last], c) == [last];
      }
    } else {
      assert Take(fi + [last], n) == fi[..n] by {
        assert (fi + [last])[..n] == fi[..n];
      }
    }
  }

  /** One step of `head(n)`: appending a product of another cluster. */
  lemma HeadStepOtherCluster(init: seq<Product>, last: Product, n: nat, c: int)
    requires last.cluster != c
    requires InCluster(HeadPerCluster(init, n), c) == Take(InCluster(init, c), n)
    ensures InCluster(HeadPerCluster(init + [last], n), c) == Take(InCluster(init + [last], c), n)
  {
    var s := init + [last];
    assert s[..|s| - 1] == init && s[|s| - 1] == last;
    var h := HeadPerCluster(init, n);
    InClusterAppend(init, [last], c);
    InClusterAppend(h, [last], c);
    assert InCluster([last], c) == [];
    assert InCluster(init, c) + [] == InCluster(init, c);
    assert InCluster(h, c) + [] == InCluster(h, c);
  }

  /** What `head(n)` keeps of each cluster is the first `n` products of that
      cluster. */
  lemma {:induction false} HeadPerClusterTakes(s: seq<Product>, n: nat, c: int)
    ensures InCluster(HeadPerCluster(s, n), c) == Take(InCluster(s, c), n)
  {
    if s != [] {
      var init := s[..|s| - 1];
      var last := s[|s| - 1];
      HeadPerClusterTakes(init, n, c);
      SplitLast(s);
      if last.cluster == c {
        HeadStepSameCluster(init, last, n);
      } else {
        HeadStepOtherCluster(init, last, n, c);
      }
    }
  }

  /** `top_products_per_cluster`. */
  function TopProductsPerCluster(merged: seq<TaggedRow>): seq<Product>
  {
    HeadPerCluster(RankedProducts(BestSellingProducts(merged)), 10)
  }

  /** `top_products_per_cluster[top_products_per_cluster['cluster'] == c]`. */
  function TopProducts(merged: seq<TaggedRow>, c: int): (r: seq<Product>)
    ensures |r| <= 10
    ensures forall p :: p in r ==> p.cluster == c
  {
    var ranked := RankedProducts(BestSellingProducts(merged));
    HeadPerClusterTakes(ranked, 10, c);
    InCluster(TopProductsPerCluster(merged), c)
  }

  /** A cluster's top list holds its best sellers: at most ten, in
      descending quantity, each with its group's total, and any product of
      the cluster left out sold no more than every one kept, and was left out
      only because ten were kept. */
  lemma TopProductsAreBestSellers(merged: seq<TaggedRow>, c: int)
    ensures var top := TopProducts(merged, c);
      && Ordered(top, RankLess)
      && (forall i, j :: 0 <= i < j < |top| ==> top[i].quantity >= top[j].quantity)
      && (forall p :: p in top ==> p in BestSellingProducts(merged))
      && (forall q :: q in BestSellingProducts(merged) && q.cluster == c && q !in top ==>
            |top| == 10 && forall p :: p in top ==> p.quantity >= q.quantity)
  {
    var best := BestSellingProducts(merged);
    var ranked := RankedProducts(best);
    assert Ordered(ranked, RankLess) && forall x :: x in ranked <==> x in best by {
      RankLessIsStrictTotal();
      SortDistinctFacts(best, RankLess);
    }
    HeadPerClusterTakes(ranked, 10, c);
    ClusterTopOfRanking(ranked, c);
  }

  /** The first ten products of cluster `c` in a ranking: the cluster's
      best sellers, in ranking order. */
  lemma ClusterTopOfRanking(ranked: seq<Product>, c: int)
    requires Ordered(ranked, RankLess)
    ensures var top := Take(InCluster(ranked, c), 10);
      && Ordered(top, RankLess)
      && (forall i, j :: 0 <= i < j < |top| ==> top[i].quantity >= top[j].quantity)
      && (forall p :: p in top ==> p in ranked)
      && (forall q :: q in ranked && q.cluster == c && q !in top ==>
            |top| == 10 && forall p :: p in top ==> p.quantity >= q.quantity)
  {
    var top := Take(InCluster(ranked, c), 10);
    TakeFilterBest(ranked, OfCluster(c), 10, RankLess);
    forall i, j | 0 <= i < j < |top| ensures top[i].quantity >= top[j].quantity {
      assert RankLess(top[i], top[j]);
    }
    forall q | q in ranked && q.cluster == c && q !in top
      ensures |top| == 10 && forall p :: p in top ==> p.quantity >= q.quantity
    {
      forall p | p in top ensures p.quantity >= q.quantity {
        assert RankLess(p, q);
      }
    }
  }


  /** The clusters of a list of products never decrease along it. */
  ghost predicate ClustersAscending(s: seq<Product>)
  {
    forall i, j :: 0 <= i < j < |s| ==> s[i].cluster <= s[j].cluster
  }

  /** `head(n)` keeps a list sorted by cluster sorted by cluster. */
  lemma {:induction false} HeadPerClusterAscending(s: seq<Product>, n: nat)
    requires ClustersAscending(s)
    ensures ClustersAscending(HeadPerCluster(s, n))
  {
    if s != [] {
      var init := s[..|s| - 1];
      var last := s[|s| - 1];
      HeadPerClusterAscending(init, n);
      var h := HeadPerCluster(init, n);
      forall p | p in h ensures p.cluster <= last.cluster {
        var k :| 0 <= k < |init| && init[k] == p;
        assert s[k] == p;
      }
    }
  }

  /** The top list is sorted by cluster, as the ranking it is cut from. */
  lemma TopClustersAscending(merged: seq<TaggedRow>)
    ensures ClustersAscending(TopProductsPerCluster(merged))
  {
    var best := BestSellingProducts(merged);
    var ranked := RankedProducts(best);
    assert Ordered(ranked, RankLess) by {
      RankLessIsStrictTotal();
      SortDistinctFacts(best, RankLess);
    }
    forall i, j | 0 <= i < j < |ranked| ensures ranked[i].cluster <= ranked[j].cluster {
      assert RankLess(ranked[i], ranked[j]);
    }
    HeadPerClusterAscending(ranked, 10);
  }

  /** The `cluster` column of a list of products, in order. */
  function ClusterColumn(top: seq<Product>): (all: seq<int>)
    ensures |all| == |top|
    ensures forall c :: c in all <==> exists p :: p in top && p.cluster == c
    ensures ClustersAscending(top) ==> forall i, j :: 0 <= i < j < |all| ==> all[i] <= all[j]
  {
    var all := seq(|top|, i requires 0 <= i < |top| => top[i].cluster);
    assert forall p :: p in top ==> p.cluster in all by {
      forall p | p in top ensures p.cluster in all {
        var i :| 0 <= i < |top| && top[i] == p;
        assert all[i] == p.cluster;
      }
    }
    assert forall c :: c in all ==> exists p :: p in top && p.cluster == c by {
      forall c | c in all ensures exists p :: p in top && p.cluster == c {
        var i :| 0 <= i < |all| && all[i] == c;
        assert top[i] in top;
      }
    }
    all
  }

  /** `top_products_per_cluster['cluster'].unique()`: the clusters in the
      order their products first appear, which, the top list being sorted by
      cluster, is ascending order. */
  function ClusterOrder(merged: seq<TaggedRow>): (cs: seq<int>)
    ensures Distinct(cs)
    ensures forall c :: c in cs <==> exists p :: p in TopProductsPerCluster(merged) && p.cluster == c
    ensures forall i, j :: 0 <= i < j < |cs| ==> cs[i] < cs[j]
  {
    var all := ClusterColumn(TopProductsPerCluster(merged));
    TopClustersAscending(merged);
    DropDuplicatesOfSorted(all);
    DropDuplicates(all)
  }
}
