/** Steps 5 to 7 of `recommendation_system`: for every cluster of the top
    list and every customer of that cluster, the first three top products
    the customer has not bought, and the frame those recommendations are
    turned into and joined back to the customer table. */
module Recommender {
  import opened Seqs
  import opened Ordering
  import opened Features
  import opened Segmentation
  import opened Products

  /** One entry of the `recommendations` list: the customer, the cluster
      and the recommended products (their stock code and description are
      what the list holds). */
  datatype Recommendation = Recommendation(customerId: int, cluster: int, picks: seq<Product>)

  /** The test `['cluster'] == c` on the clustered table. */
  function MemberOf(c: int): ClusteredCustomer -> bool
  {
    (x: ClusteredCustomer) => x.cluster == c
  }

  /** `customer_data_cleaned[customer_data_cleaned['cluster'] == c]['CustomerID']`. */
  function CustomersIn(clustered: seq<ClusteredCustomer>, c: int): (ids: seq<int>)
    ensures forall id :: id in ids <==> exists x :: x in clustered && x.cluster == c && x.features.customerId == id
  {
    var members := Filter(clustered, MemberOf(c));
    var ids := Column(members, IdOf);
    assert forall x :: x in members ==> x.features.customerId in ids by {
      forall x | x in members ensures x.features.customerId in ids {
        var i :| 0 <= i < |members| && members[i] == x;
        assert ids[i] == x.features.customerId;
      }
    }
    ids
  }

  /** The ids of a cluster come in the order of the clustered table, and,
      when no id repeats in that table, each comes once. */
  lemma CustomersInTableOrder(clustered: seq<ClusteredCustomer>, c: int)
    requires UniqueIds(clustered)
    ensures var ids := CustomersIn(clustered, c);
      && Distinct(ids)
      && (forall id :: id in ids ==> id in Column(clustered, IdOf))
      && (forall i, j :: 0 <= i < j < |ids| ==>
            FirstIndex(Column(clustered, IdOf), ids[i]) < FirstIndex(Column(clustered, IdOf), ids[j]))
  {
    var members := Filter(clustered, MemberOf(c));
    var ids := CustomersIn(clustered, c);
    var col := Column(clustered, IdOf);
    var idx := FilterPositions(clustered, MemberOf(c));
    assert forall i :: 0 <= i < |ids| ==> col[idx[i]] == ids[i];
    forall i | 0 <= i < |ids| ensures ids[i] in col && FirstIndex(col, ids[i]) == idx[i] {
      assert col[idx[i]] == ids[i];
      var f := FirstIndex(col, ids[i]);
      assert clustered[f].features.customerId == clustered[idx[i]].features.customerId;
    }
    forall id | id in ids ensures id in col {
      var i :| 0 <= i < |ids| && ids[i] == id;
    }
    forall i, j | 0 <= i < j < |ids| ensures ids[i] != ids[j] {
      assert clustered[idx[i]].features.customerId == ids[i];
      assert clustered[idx[j]].features.customerId == ids[j];
    }
  }

  /** The stock codes of `customer_purchases` for one customer and cluster. */
  function Purchased(merged: seq<TaggedRow>, id: int, c: int): (codes: set<string>)
    ensures forall code :: code in codes <==>
      exists t :: t in merged && t.row.customerId == id && t.cluster == c && t.row.stockCode == code
  {
    set t | t in merged && t.row.customerId == id && t.cluster == c :: t.row.stockCode
  }

  /** `top_products[~top_products['StockCode'].isin(purchased)].head(3)`:
      at most three products of the list, none already bought, and, over a
      ranked list, the best such ones: any unbought product left out ranks
      behind every pick and was left out only because three were taken. */
  function Picks(top: seq<Product>, purchased: set<string>): (r: seq<Product>)
    ensures |r| <= 3
    ensures forall p :: p in r ==> p in top && p.stockCode !in purchased
    ensures Ordered(top, RankLess) ==>
      && Ordered(r, RankLess)
      && forall q :: q in top && q.stockCode !in purchased && q !in r ==>
           |r| == 3 && forall p :: p in r ==> RankLess(p, q)
  {
    var unbought := (p: Product) => p.stockCode !in purchased;
    var r := Take(Filter(top, unbought), 3);
    assert Ordered(top, RankLess) ==>
      && Ordered(r, RankLess)
      && forall q :: q in top && q.stockCode !in purchased && q !in r ==>
           |r| == 3 && forall p :: p in r ==> RankLess(p, q)
    by {
      if Ordered(top, RankLess) {
        TakeFilterBest(top, unbought, 3, RankLess);
      }
    }
    r
  }

  /** The recommendation for one customer of cluster `c`: for that
      customer and cluster, with at most three of the cluster's products;
      `RecommendPicks` says which. */
  function Recommend(merged: seq<TaggedRow>, id: int, c: int): (r: Recommendation)
    ensures r.customerId == id && r.cluster == c
    ensures |r.picks| <= 3
    ensures forall p :: p in r.picks ==> p.cluster == c
  {
    Recommendation(id, c, Picks(TopProducts(merged, c), Purchased(merged, id, c)))
  }

  /** What a customer's picks satisfy: at most three of the cluster's top
      products, none that the customer bought in the cluster, in descending
      quantity; any unbought top product left out sold no more than every
      pick, and was left out only because three were picked. */
  lemma RecommendPicks(merged: seq<TaggedRow>, id: int, c: int)
    ensures var top := TopProducts(merged, c);
      var purchased := Purchased(merged, id, c);
      var picks := Recommend(merged, id, c).picks;
      && (forall p :: p in picks ==> p in top && p.stockCode !in purchased)
      && (forall i, j :: 0 <= i < j < |picks| ==> picks[i].quantity >= picks[j].quantity)
      && (forall q :: q in top && q.stockCode !in purchased && q !in picks ==>
            |picks| == 3 && forall p :: p in picks ==> p.quantity >= q.quantity)
  {
    var top := TopProducts(merged, c);
    var purchased := Purchased(merged, id, c);
    var picks := Picks(top, purchased);
    assert Recommend(merged, id, c).picks == picks;
    assert Ordered(top, RankLess) by {
      TopProductsAreBestSellers(merged, c);
    }
    PicksByQuantity(top, purchased, c);
  }

  /** Over a ranked list of one cluster's products, the picks come in
      descending quantity and outsell every unbought product left out. */
  lemma PicksByQuantity(top: seq<Product>, purchased: set<string>, c: int)
    requires Ordered(top, RankLess)
    requires forall p :: p in top ==> p.cluster == c
    ensures var picks := Picks(top, purchased);
      && (forall i, j :: 0 <= i < j < |picks| ==> picks[i].quantity >= picks[j].quantity)
      && (forall q :: q in top && q.stockCode !in purchased && q !in picks ==>
            |picks| == 3 && forall p :: p in picks ==> p.quantity >= q.quantity)
  {
    var picks := Picks(top, purchased);
    forall i, j | 0 <= i < j < |picks| ensures picks[i].quantity >= picks[j].quantity {
      assert RankLess(picks[i], picks[j]);
    }
    forall q | q in top && q.stockCode !in purchased && q !in picks
      ensures |picks| == 3 && forall p :: p in picks ==> p.quantity >= q.quantity
    {
      forall p | p in picks ensures p.quantity >= q.quantity {
        assert RankLess(p, q);
      }
    }
  }

  /** The inner loop: one recommendation per customer, in order. */
  function ForCustomers(merged: seq<TaggedRow>, ids: seq<int>, c: int): (recs: seq<Recommendation>)
    ensures |recs| == |ids|
  {
    if ids == [] then []
    else ForCustomers(merged, ids[..|ids| - 1], c) + [Recommend(merged, ids[|ids| - 1], c)]
  }

  /** The outer loop over the clusters `cs`. */
  function ForClusters(merged: seq<TaggedRow>, clustered: seq<ClusteredCustomer>, cs: seq<int>): seq<Recommendation>
  {
    if cs == [] then []
    else
      var c := cs[|cs| - 1];
      ForClusters(merged, clustered, cs[..|cs| - 1]) + ForCustomers(merged, CustomersIn(clustered, c), c)
  }

  /** The `recommendations` list that steps 1 to 6 build. */
  function AllRecommendations(rows: seq<Transactions.Row>, outliers: seq<CustomerFeatures>,
                              clustered: seq<ClusteredCustomer>): seq<Recommendation>
  {
    var merged := MergedRows(rows, outliers, clustered);
    ForClusters(merged, clustered, ClusterOrder(merged))
  }

  /** Steps 1 to 6: the merged rows, the cluster order, then the two
      nested loops of the source. */
  method RecommendationSystem(rows: seq<Transactions.Row>, outliers: seq<CustomerFeatures>,
                              clustered: seq<ClusteredCustomer>) returns (recs: seq<Recommendation>)
    ensures recs == AllRecommendations(rows, outliers, clustered)
  {
    var merged := MergedRows(rows, outliers, clustered);
    var clusters := ClusterOrder(merged);
    recs := RecommendClusters(merged, clustered, clusters);
  }

  /** The outer loop, over the clusters in order. */
  method RecommendClusters(merged: seq<TaggedRow>, clustered: seq<ClusteredCustomer>, clusters: seq<int>)
    returns (recs: seq<Recommendation>)
    ensures recs == ForClusters(merged, clustered, clusters)
  {
    recs := [];
    var k := 0;
    while k < |clusters|
      invariant 0 <= k <= |clusters|
      invariant recs == ForClusters(merged, clustered, clusters[..k])
    {
      var c := clusters[k];
      var customers := CustomersIn(clustered, c);
      var part := RecommendCluster(merged, c, customers);
      var next := clusters[..k + 1];
      assert next[..|next| - 1] == clusters[..k] && next[|next| - 1] == c;
      recs := recs + part;
      k := k + 1;
    }
    assert clusters[..k] == clusters;
  }

  /** The inner loop, for the customers of cluster `c`. */
  method RecommendCluster(merged: seq<TaggedRow>, c: int, customers: seq<int>) returns (part: seq<Recommendation>)
    ensures part == ForCustomers(merged, customers, c)
  {
    var top := TopProducts(merged, c);
    part := [];
    var m := 0;
    while m < |customers|
      invariant 0 <= m <= |customers|
      invariant part == ForCustomers(merged, customers[..m], c)
    {
      var purchased := Purchased(merged, customers[m], c);
      var picks := Picks(top, purchased);
      assert Recommendation(customers[m], c, picks) == Recommend(merged, customers[m], c);
      ForCustomersStep(merged, customers, m, c);
      part := part + [Recommendation(customers[m], c, picks)];
      m := m + 1;
    }
    assert customers[..m] == customers;
  }

  /** One more customer adds that customer's recommendation at the end. */
  lemma ForCustomersStep(merged: seq<TaggedRow>, ids: seq<int>, m: nat, c: int)
    requires m < |ids|
    ensures ForCustomers(merged, ids[..m + 1], c) == ForCustomers(merged, ids[..m], c) + [Recommend(merged, ids[m], c)]
  {
    assert ids[..m + 1][..m] == ids[..m];
  }

  lemma {:induction false} ForCustomersMembers(merged: seq<TaggedRow>, ids: seq<int>, c: int)
    ensures forall r :: r in ForCustomers(merged, ids, c) ==> r.customerId in ids && r == Recommend(merged, r.customerId, c)
    ensures forall id :: id in ids ==> Recommend(merged, id, c) in ForCustomers(merged, ids, c)
  {
    if ids != [] {
      var init := ids[..|ids| - 1];
      var last := ids[|ids| - 1];
      ForCustomersMembers(merged, init, c);
      assert ids == init + [last];
      var prev := ForCustomers(merged, init, c);
      var rl := Recommend(merged, last, c);
      assert ForCustomers(merged, ids, c) == prev + [rl];
      forall r | r in prev + [rl] ensures r.customerId in ids && r == Recommend(merged, r.customerId, c) {
        if r in prev {
          assert r.customerId in init;
        } else {
          assert r == rl;
        }
      }
      forall id | id in ids ensures Recommend(merged, id, c) in prev + [rl] {
        if id != last {
          assert id in init;
        }
      }
    }
  }

  /** Each recommendation belongs to a customer of a listed cluster and is
      that customer's recommendation; and every customer of every listed
      cluster gets one. */
  lemma {:induction false} ForClustersMembers(merged: seq<TaggedRow>, clustered: seq<ClusteredCustomer>, cs: seq<int>)
    ensures forall r :: r in ForClusters(merged, clustered, cs) ==>
      && r.cluster in cs
      && r.customerId in CustomersIn(clustered, r.cluster)
      && r == Recommend(merged, r.customerId, r.cluster)
    ensures forall c, id :: c in cs && id in CustomersIn(clustered, c) ==>
      Recommend(merged, id, c) in ForClusters(merged, clustered, cs)
  {
    if cs != [] {
      var init := cs[..|cs| - 1];
      var c := cs[|cs| - 1];
      ForClustersMembers(merged, clustered, init);
      ForCustomersMembers(merged, CustomersIn(clustered, c), c);
      assert cs == init + [c];
    }
  }

  /** What every recommendation satisfies: it is for a customer of that
      cluster; it holds at most three products, all among the cluster's top
      ten and none that customer bought in the cluster; they come in
      descending quantity; and any top product the customer has not bought
      that was left out ranks behind all three picks. */
  lemma RecommendationFacts(rows: seq<Transactions.Row>, outliers: seq<CustomerFeatures>,
                            clustered: seq<ClusteredCustomer>, r: Recommendation)
    requires r in AllRecommendations(rows, outliers, clustered)
    ensures var merged := MergedRows(rows, outliers, clustered);
      var top := TopProducts(merged, r.cluster);
      var purchased := Purchased(merged, r.customerId, r.cluster);
      && (exists x :: x in clustered && x.features.customerId == r.customerId && x.cluster == r.cluster)
      && |r.picks| <= 3
      && (forall p :: p in r.picks ==> p in top && p.cluster == r.cluster && p.stockCode !in purchased)
      && (forall i, j :: 0 <= i < j < |r.picks| ==> r.picks[i].quantity >= r.picks[j].quantity)
      && (forall q :: q in top && q.stockCode !in purchased && q !in r.picks ==>
            |r.picks| == 3 && forall p :: p in r.picks ==> p.quantity >= q.quantity)
  {
    var merged := MergedRows(rows, outliers, clustered);
    ForClustersMembers(merged, clustered, ClusterOrder(merged));
    RecommendPicks(merged, r.customerId, r.cluster);
  }

  /** Every customer of a cluster that has a top list gets a recommendation. */
  lemma EveryCustomerServed(rows: seq<Transactions.Row>, outliers: seq<CustomerFeatures>,
                            clustered: seq<ClusteredCustomer>, x: ClusteredCustomer)
    requires x in clustered
    requires exists p :: p in TopProductsPerCluster(MergedRows(rows, outliers, clustered)) && p.cluster == x.cluster
    ensures exists r :: (r in AllRecommendations(rows, outliers, clustered)
      && r.customerId == x.features.customerId && r.cluster == x.cluster)
  {
    var merged := MergedRows(rows, outliers, clustered);
    ForClustersMembers(merged, clustered, ClusterOrder(merged));
    var r := Recommend(merged, x.features.customerId, x.cluster);
    assert r in AllRecommendations(rows, outliers, clustered);
  }

  /** Why building the recommendations frame can fail: every entry has
      fewer than three picks, so the rows are narrower than the eight named
      columns; or fewer than ten rows remain for the `sample(10)` that
      follows the merge. */
  datatype FrameError = ColumnCountMismatch | SampleLargerThanPopulation

  /** One row of `customer_data_with_recommendations`: the customer's
      features when the right merge found them. */
  datatype CustomerRecommendation = CustomerRecommendation(
    features: Option<CustomerFeatures>, customerId: int, cluster: int, picks: seq<Product>)

  /** The rows the right merge makes of one recommendation: one per
      matching customer, or one with no features when none matches. */
  function JoinOne(clustered: seq<ClusteredCustomer>, r: Recommendation): (j: seq<CustomerRecommendation>)
    ensures |j| >= 1
    ensures forall y :: y in j ==> y.customerId == r.customerId && y.cluster == r.cluster && y.picks == r.picks
    ensures forall y :: y in j && y.features.Some? ==>
      exists x :: x in clustered && x.features == y.features.value && x.features.customerId == r.customerId && x.cluster == r.cluster
  {
    var matches := Filter(clustered, (x: ClusteredCustomer) => x.features.customerId == r.customerId && x.cluster == r.cluster);
    if matches == [] then [CustomerRecommendation(None, r.customerId, r.cluster, r.picks)]
    else
      var j := seq(|matches|, i requires 0 <= i < |matches| =>
        CustomerRecommendation(Some(matches[i].features), r.customerId, r.cluster, r.picks));
      assert forall y :: y in j && y.features.Some? ==>
        exists x :: x in clustered && x.features == y.features.value && x.features.customerId == r.customerId && x.cluster == r.cluster
      by {
        forall y | y in j && y.features.Some?
          ensures exists x :: x in clustered && x.features == y.features.value && x.features.customerId == r.customerId && x.cluster == r.cluster
        {
          var i :| 0 <= i < |j| && j[i] == y;
          assert matches[i] in matches;
        }
      }
      j
  }

  /** The recommendation a row of the merged frame carries: its id,
      cluster and picks. */
  function CarriedOf(y: CustomerRecommendation): Recommendation
  {
    Recommendation(y.customerId, y.cluster, y.picks)
  }

  /** `customer_data_cleaned.merge(recommendations_df, on=['CustomerID',
      'cluster'], how='right')`, in the order of the recommendations: a
      right merge keeps every recommendation, so each is carried by some
      row, and every row carries one of them. */
  function RightMerge(clustered: seq<ClusteredCustomer>, recs: seq<Recommendation>): (j: seq<CustomerRecommendation>)
    ensures |j| >= |recs|
    ensures forall r :: r in recs ==> r in Column(j, CarriedOf)
    ensures forall y :: y in j ==> CarriedOf(y) in recs
  {
    if recs == [] then []
    else
      var head := JoinOne(clustered, recs[0]);
      var rest := RightMerge(clustered, recs[1..]);
      CarriedAppend(head, rest, recs);
      head + rest
  }

  /** Rows that all carry the first recommendation, put in front of rows
      that cover the others, cover them all. */
  lemma CarriedAppend(head: seq<CustomerRecommendation>, rest: seq<CustomerRecommendation>, recs: seq<Recommendation>)
    requires recs != [] && head != []
    requires forall y :: y in head ==> y.customerId == recs[0].customerId && y.cluster == recs[0].cluster && y.picks == recs[0].picks
    requires |rest| >= |recs| - 1
    requires forall r :: r in recs[1..] ==> r in Column(rest, CarriedOf)
    requires forall y :: y in rest ==> CarriedOf(y) in recs[1..]
    ensures |head + rest| >= |recs|
    ensures forall r :: r in recs ==> r in Column(head + rest, CarriedOf)
    ensures forall y :: y in head + rest ==> CarriedOf(y) in recs
  {
    var j := head + rest;
    ColumnAppend(head, rest, CarriedOf);
    assert Column(head, CarriedOf)[0] == recs[0];
    forall r | r in recs ensures r in Column(j, CarriedOf) {
      if r != recs[0] {
        assert r in recs[1..];
      }
    }
    forall y | y in j ensures CarriedOf(y) in recs {
      if y in head {
        assert CarriedOf(y) == recs[0];
      } else {
        assert CarriedOf(y) in recs[1..];
      }
    }
  }

  /** Step 7 and the `sample(10)` after it. */
  function RecommendationOutput(clustered: seq<ClusteredCustomer>, recs: seq<Recommendation>): (out: Result<seq<CustomerRecommendation>, FrameError>)
    ensures out == Failure(ColumnCountMismatch) <==>
      recs != [] && ((forall r :: r in recs ==> |r.picks| < 3) || (exists r :: r in recs && |r.picks| > 3))
    ensures out.Success? ==> |out.value| >= 10 && |out.value| >= |recs|
    ensures out.Success? ==> forall y :: y in out.value && y.features.Some? ==>
      exists x :: x in clustered && x.features == y.features.value && x.features.customerId == y.customerId && x.cluster == y.cluster
  {
    if recs != [] && MaxPicks(recs) != 3 then Failure(ColumnCountMismatch)
    else
      var j := RightMerge(clustered, recs);
      RightMergeRows(clustered, recs);
      if |j| < 10 then Failure(SampleLargerThanPopulation) else Success(j)
  }

  /** Steps 5 to 7 on the cleaned customers and their cluster labels: the
      recommendations, then the frame they become. */
  method RecommendationFrame(rows: seq<Transactions.Row>, outliers: seq<CustomerFeatures>,
                             cleaned: seq<CustomerFeatures>, labels: seq<int>)
    returns (out: Result<seq<CustomerRecommendation>, FrameError>)
    requires |labels| == |cleaned|
    ensures var clustered := AssignClusters(cleaned, labels);
      out == RecommendationOutput(clustered, AllRecommendations(rows, outliers, clustered))
  {
    var clustered := AssignClusters(cleaned, labels);
    var recs := RecommendationSystem(rows, outliers, clustered);
    out := RecommendationOutput(clustered, recs);
  }

  /** The longest pick list, which sets the width of the frame's rows. */
  function MaxPicks(recs: seq<Recommendation>): (m: nat)
    requires recs != []
    ensures forall r :: r in recs ==> |r.picks| <= m
    ensures exists r :: r in recs && |r.picks| == m
  {
    if |recs| == 1 then |recs[0].picks|
    else
      var rest := MaxPicks(recs[1..]);
      assert forall r :: r in recs <==> r == recs[0] || r in recs[1..];
      if |recs[0].picks| > rest then |recs[0].picks| else rest
  }

  lemma {:induction false} RightMergeRows(clustered: seq<ClusteredCustomer>, recs: seq<Recommendation>)
    ensures forall y :: y in RightMerge(clustered, recs) && y.features.Some? ==>
      exists x :: x in clustered && x.features == y.features.value && x.features.customerId == y.customerId && x.cluster == y.cluster
  {
    if recs != [] {
      RightMergeRows(clustered, recs[1..]);
    }
  }

  /** A row of the merged frame that belongs to recommendation `r` and
      carries the features of `r`'s own customer. */
  predicate JoinedTo(y: CustomerRecommendation, r: Recommendation)
  {
    && y.customerId == r.customerId
    && y.cluster == r.cluster
    && y.picks == r.picks
    && y.features.Some?
    && y.features.value.customerId == r.customerId
  }

  /** With distinct customer ids, each recommendation of the pipeline finds
      exactly its own customer in the right merge: one row per
      recommendation, in order, carrying that customer's features. */
  lemma {:induction false} RightMergeFindsEachCustomer(clustered: seq<ClusteredCustomer>, recs: seq<Recommendation>)
    requires forall i, j :: 0 <= i < j < |clustered| ==> clustered[i].features.customerId != clustered[j].features.customerId
    requires forall r :: r in recs ==> exists x :: x in clustered && x.features.customerId == r.customerId && x.cluster == r.cluster
    ensures |RightMerge(clustered, recs)| == |recs|
    ensures forall i :: 0 <= i < |recs| ==> JoinedTo(RightMerge(clustered, recs)[i], recs[i])
  {
    if recs != [] {
      var r := recs[0];
      var tail := recs[1..];
      var head := JoinOne(clustered, r);
      assert |head| == 1 && JoinedTo(head[0], r) by {
        assert r in recs;
        JoinOneSingle(clustered, r);
        assert head[0] in head;
      }
      var rest := RightMerge(clustered, tail);
      assert |rest| == |tail| && forall i :: 0 <= i < |tail| ==> JoinedTo(rest[i], tail[i]) by {
        assert forall q :: q in tail ==> q in recs;
        RightMergeFindsEachCustomer(clustered, tail);
      }
      JoinedAppend(head, rest, recs);
    }
  }

  /** One row joined to the first recommendation, put in front of rows
      joined to the others in order, joins them all in order. */
  lemma JoinedAppend(head: seq<CustomerRecommendation>, rest: seq<CustomerRecommendation>, recs: seq<Recommendation>)
    requires recs != [] && |head| == 1 && JoinedTo(head[0], recs[0])
    requires |rest| == |recs| - 1 && forall i :: 0 <= i < |rest| ==> JoinedTo(rest[i], recs[1..][i])
    ensures |head + rest| == |recs|
    ensures forall i :: 0 <= i < |recs| ==> JoinedTo((head + rest)[i], recs[i])
  {
    forall i | 0 < i < |recs| ensures JoinedTo((head + rest)[i], recs[i]) {
      assert recs[i] == recs[1..][i - 1] && (head + rest)[i] == rest[i - 1];
    }
  }

  lemma JoinOneSingle(clustered: seq<ClusteredCustomer>, r: Recommendation)
    requires forall i, j :: 0 <= i < j < |clustered| ==> clustered[i].features.customerId != clustered[j].features.customerId
    requires exists x :: x in clustered && x.features.customerId == r.customerId && x.cluster == r.cluster
    ensures |JoinOne(clustered, r)| == 1
    ensures JoinOne(clustered, r)[0].features.Some?
    ensures JoinOne(clustered, r)[0].features.value.customerId == r.customerId
  {
    var p := (x: ClusteredCustomer) => x.features.customerId == r.customerId && x.cluster == r.cluster;
    var differ := (a: ClusteredCustomer, b: ClusteredCustomer) => a.features.customerId != b.features.customerId;
    FilterOrdered(clustered, p, differ);
    var matches := Filter(clustered, p);
    var x :| x in clustered && x.features.customerId == r.customerId && x.cluster == r.cluster;
    assert x in matches;
    if |matches| > 1 {
      FirstTwo(matches);
      assert false;
    }
    var y := JoinOne(clustered, r)[0];
    assert y in JoinOne(clustered, r);
  }

  lemma FirstTwo<T>(s: seq<T>)
    ensures |s| > 1 ==> s[0] in s && s[1] in s
  {
  }

  /** With distinct customer ids in the clustered table, the right merge
      gives each recommendation exactly one row, in order, holding its own
      customer's features. */
  lemma RecommendationsJoinOwnCustomers(rows: seq<Transactions.Row>, outliers: seq<CustomerFeatures>,
                                        clustered: seq<ClusteredCustomer>)
    requires forall i, j :: 0 <= i < j < |clustered| ==> clustered[i].features.customerId != clustered[j].features.customerId
    ensures var recs := AllRecommendations(rows, outliers, clustered);
      var joined := RightMerge(clustered, recs);
      && |joined| == |recs|
      && forall i :: 0 <= i < |recs| ==> JoinedTo(joined[i], recs[i])
  {
    var merged := MergedRows(rows, outliers, clustered);
    var recs := AllRecommendations(rows, outliers, clustered);
    ForClustersMembers(merged, clustered, ClusterOrder(merged));
    forall r | r in recs
      ensures exists x :: x in clustered && x.features.customerId == r.customerId && x.cluster == r.cluster
    {
      assert r.customerId in CustomersIn(clustered, r.cluster);
    }
    RightMergeFindsEachCustomer(clustered, recs);
  }

  /** End to end from the customer table (which `FeatureTableFacts` shows
      is in ascending id order), an isolation-forest score per customer and
      k-means labels in 0..2 per inlier: every recommendation the pipeline
      builds is joined to its own customer, and to that customer alone. */
  lemma PipelineJoinsOwnCustomers(rows: seq<Transactions.Row>, customers: seq<CustomerFeatures>,
                                  scores: seq<int>, labels: seq<int>)
    requires AscendingIds(customers)
    requires |scores| == |customers|
    requires |labels| == |Inliers(customers, scores)|
    requires forall i :: 0 <= i < |labels| ==> 0 <= labels[i] < 3
    ensures var clustered := AssignClusters(Inliers(customers, scores), RemapLabels(labels).value);
      var recs := AllRecommendations(rows, Outliers(customers, scores), clustered);
      var joined := RightMerge(clustered, recs);
      && |joined| == |recs|
      && forall i :: 0 <= i < |recs| ==> JoinedTo(joined[i], recs[i])
  {
    PartitionKeepsOrder(customers, scores);
    var cleaned := Inliers(customers, scores);
    ClusteredIdsDistinct(cleaned, RemapLabels(labels).value);
    RecommendationsJoinOwnCustomers(rows, Outliers(customers, scores), AssignClusters(cleaned, RemapLabels(labels).value));
  }

  /** Customers with ascending ids keep distinct ids once clustered. */
  lemma ClusteredIdsDistinct(cleaned: seq<CustomerFeatures>, labels: seq<int>)
    requires |labels| == |cleaned|
    requires AscendingIds(cleaned)
    ensures var clustered := AssignClusters(cleaned, labels);
      forall i, j :: 0 <= i < j < |clustered| ==> clustered[i].features.customerId != clustered[j].features.customerId
  {
    var clustered := AssignClusters(cleaned, labels);
    forall i, j | 0 <= i < j < |clustered|
      ensures clustered[i].features.customerId != clustered[j].features.customerId
    {
      assert clustered[i].features == cleaned[i] && clustered[j].features == cleaned[j];
    }
  }
}
