/** The discrete parts of `fix_outlier` and `kmeans_clustering`. The
    isolation forest and k-means models are library calls over floats; the
    model takes what they produce (one score per customer, one label per
    inlier) as inputs and keeps what the pipeline does with them. */
module Segmentation {
  import opened Seqs
  import opened Features

  /** The score `IsolationForest.fit_predict` gives an outlier. */
  const OutlierScore: int := -1

  /** `customer_data_cleaned`: the customers whose score is not -1, in table
      order. */
  function Inliers(customers: seq<CustomerFeatures>, scores: seq<int>): (r: seq<CustomerFeatures>)
    requires |scores| == |customers|
    ensures |r| <= |customers|
    ensures forall f :: f in r ==> exists i :: 0 <= i < |customers| && customers[i] == f && scores[i] != OutlierScore
  {
    if customers == [] then []
    else
      var rest := Inliers(customers[1..], scores[1..]);
      assert forall f :: f in rest ==> exists i :: 0 <= i < |customers| && customers[i] == f && scores[i] != OutlierScore by {
        forall f | f in rest ensures exists i :: 0 <= i < |customers| && customers[i] == f && scores[i] != OutlierScore {
          var k :| 0 <= k < |customers[1..]| && customers[1..][k] == f && scores[1..][k] != OutlierScore;
          assert customers[k + 1] == f && scores[k + 1] != OutlierScore;
        }
      }
      if scores[0] == OutlierScore then rest else [customers[0]] + rest
  }

  /** `outliers_data`: the customers whose score is -1, in table order. */
  function Outliers(customers: seq<CustomerFeatures>, scores: seq<int>): (r: seq<CustomerFeatures>)
    requires |scores| == |customers|
    ensures |r| <= |customers|
    ensures forall f :: f in r ==> exists i :: 0 <= i < |customers| && customers[i] == f && scores[i] == OutlierScore
  {
    if customers == [] then []
    else
      var rest := Outliers(customers[1..], scores[1..]);
      assert forall f :: f in rest ==> exists i :: 0 <= i < |customers| && customers[i] == f && scores[i] == OutlierScore by {
        forall f | f in rest ensures exists i :: 0 <= i < |customers| && customers[i] == f && scores[i] == OutlierScore {
          var k :| 0 <= k < |customers[1..]| && customers[1..][k] == f && scores[1..][k] == OutlierScore;
          assert customers[k + 1] == f && scores[k + 1] == OutlierScore;
        }
      }
      if scores[0] == OutlierScore then [customers[0]] + rest else rest
  }

  /** Together the two tables hold the customer table: nothing lost and
      nothing repeated. */
  lemma {:induction false} PartitionIsComplete(customers: seq<CustomerFeatures>, scores: seq<int>)
    requires |scores| == |customers|
    ensures multiset(Inliers(customers, scores)) + multiset(Outliers(customers, scores)) == multiset(customers)
  {
    if customers != [] {
      PartitionIsComplete(customers[1..], scores[1..]);
      assert customers == [customers[0]] + customers[1..];
    }
  }

  /** Each customer lands in the table its score picks. */
  lemma {:induction false} PartitionPlacesEach(customers: seq<CustomerFeatures>, scores: seq<int>)
    requires |scores| == |customers|
    ensures forall i :: 0 <= i < |customers| && scores[i] != OutlierScore ==> customers[i] in Inliers(customers, scores)
    ensures forall i :: 0 <= i < |customers| && scores[i] == OutlierScore ==> customers[i] in Outliers(customers, scores)
  {
    if customers != [] {
      PartitionPlacesEach(customers[1..], scores[1..]);
      forall i | 0 < i < |customers| ensures customers[i] == customers[1..][i - 1] && scores[i] == scores[1..][i - 1] { }
    }
  }

  /** Ascending customer ids stay ascending in both tables. */
  lemma {:induction false} PartitionKeepsOrder(customers: seq<CustomerFeatures>, scores: seq<int>)
    requires |scores| == |customers|
    requires AscendingIds(customers)
    ensures AscendingIds(Inliers(customers, scores))
    ensures AscendingIds(Outliers(customers, scores))
  {
    if customers != [] {
      var tail := customers[1..];
      PartitionKeepsOrder(tail, scores[1..]);
      forall f | f in tail ensures customers[0].customerId < f.customerId {
        var k :| 0 <= k < |tail| && tail[k] == f;
        assert customers[k + 1] == f;
      }
      var inl := Inliers(tail, scores[1..]);
      var out := Outliers(tail, scores[1..]);
      assert AscendingIds(Inliers(customers, scores)) by {
        forall i | 0 <= i < |inl| ensures customers[0].customerId < inl[i].customerId {
          assert inl[i] in inl;
          var k :| 0 <= k < |tail| && tail[k] == inl[i] && scores[1..][k] != OutlierScore;
        }
        var r := [customers[0]] + inl;
        forall i, j | 0 <= i < j < |r| ensures r[i].customerId < r[j].customerId {
          assert r[j] == inl[j - 1];
          if i > 0 { assert r[i] == inl[i - 1]; }
        }
      }
      assert AscendingIds(Outliers(customers, scores)) by {
        forall i | 0 <= i < |out| ensures customers[0].customerId < out[i].customerId {
          assert out[i] in out;
          var k :| 0 <= k < |tail| && tail[k] == out[i] && scores[1..][k] == OutlierScore;
        }
        var q := [customers[0]] + out;
        forall i, j | 0 <= i < j < |q| ensures q[i].customerId < q[j].customerId {
          assert q[j] == out[j - 1];
          if i > 0 { assert q[i] == out[i - 1]; }
        }
      }
    }
  }

  /** With distinct customer ids, no inlier shares its id with an outlier,
      so dropping the outliers' transactions never drops an inlier's. */
  lemma PartitionSeparatesIds(customers: seq<CustomerFeatures>, scores: seq<int>)
    requires |scores| == |customers|
    requires forall i, j :: 0 <= i < j < |customers| ==> customers[i].customerId != customers[j].customerId
    ensures forall f, g :: f in Inliers(customers, scores) && g in Outliers(customers, scores) ==> f.customerId != g.customerId
  {
    forall f, g | f in Inliers(customers, scores) && g in Outliers(customers, scores)
      ensures f.customerId != g.customerId
    {
      var i :| 0 <= i < |customers| && customers[i] == f && scores[i] != OutlierScore;
      var j :| 0 <= j < |customers| && customers[j] == g && scores[j] == OutlierScore;
      assert i != j;
    }
  }

  /** The literal `{2: 1, 1: 0, 0: 2}` as its items, in order. */
  const DeclaredLabelItems: seq<(int, int)> := [(2, 1), (1, 0), (0, 2)]

  /** Item `i` is the last of `items` whose value is `v`. */
  ghost predicate LastWith(items: seq<(int, int)>, i: int, v: int)
  {
    0 <= i < |items| && items[i].1 == v && forall j :: i < j < |items| ==> items[j].1 != v
  }

  /** `{v: k for k, v in items}`: the keys are the items' values, and each
      maps to the key of the last item carrying it, since later items
      overwrite earlier ones. */
  function InvertItems(items: seq<(int, int)>): (m: map<int, int>)
    ensures forall v :: v in m <==> exists p :: p in items && p.1 == v
    ensures forall v :: v in m ==> exists i :: LastWith(items, i, v) && items[i].0 == m[v]
  {
    if items == [] then map[]
    else
      var init := items[..|items| - 1];
      var last := items[|items| - 1];
      assert items == init + [last];
      var prev := InvertItems(init);
      var m := prev[last.1 := last.0];
      assert forall v :: v in m ==> exists i :: LastWith(items, i, v) && items[i].0 == m[v] by {
        forall v | v in m ensures exists i :: LastWith(items, i, v) && items[i].0 == m[v] {
          if v == last.1 {
            assert LastWith(items, |items| - 1, v);
          } else {
            var i :| LastWith(init, i, v) && init[i].0 == prev[v];
            assert items[i] == init[i];
            assert LastWith(items, i, v) by {
              forall j | i < j < |items| ensures items[j].1 != v {
                if j < |init| { assert items[j] == init[j]; }
              }
            }
          }
        }
      }
      m
  }

  /** With no value repeated, inverting undoes the items exactly: each value
      maps back to its own key. */
  lemma InvertItemsOfDistinctValues(items: seq<(int, int)>)
    requires forall i, j :: 0 <= i < j < |items| ==> items[i].1 != items[j].1
    ensures forall i :: 0 <= i < |items| ==> items[i].1 in InvertItems(items) && InvertItems(items)[items[i].1] == items[i].0
  {
    var m := InvertItems(items);
    forall i | 0 <= i < |items| ensures items[i].1 in m && m[items[i].1] == items[i].0 {
      var v := items[i].1;
      assert items[i] in items;
      var k :| LastWith(items, k, v) && items[k].0 == m[v];
      assert k == i;
    }
  }

  /** The mapping `kmeans_clustering` applies: the inverse of the literal,
      which replaces the frequency-based mapping built just before it. It
      is the rotation 0 -> 1, 1 -> 2, 2 -> 0 of the three labels. */
  function LabelMapping(): (m: map<int, int>)
    ensures forall k :: k in m <==> 0 <= k < 3
    ensures forall k :: k in m ==> m[k] == if k < 2 then k + 1 else 0
  {
    var items := DeclaredLabelItems;
    assert items[..1][..0] == [] && items[..2][..1] == items[..1] && items[..3][..2] == items[..2];
    assert InvertItems(items[..1]) == map[1 := 2];
    assert InvertItems(items[..2]) == map[1 := 2, 0 := 1];
    assert items[..3] == items;
    var m := InvertItems(items);
    m
  }

  /** The applied mapping is a bijection of the three labels onto
      themselves, whatever the cluster sizes were. */
  lemma LabelMappingIsBijection()
    ensures LabelMapping().Values == {0, 1, 2}
    ensures forall a, b :: a in LabelMapping() && b in LabelMapping() && LabelMapping()[a] == LabelMapping()[b] ==> a == b
  {
    var m := LabelMapping();
    assert m[0] == 1 && m[1] == 2 && m[2] == 0;
  }

  /** `np.array([label_mapping[label] for label in kmeans.labels_])`: a
      label outside the mapping raises `KeyError`, modelled as `None`. */
  function RemapLabels(labels: seq<int>): (r: Option<seq<int>>)
    ensures r.Some? <==> forall i :: 0 <= i < |labels| ==> 0 <= labels[i] < 3
    ensures r.Some? ==> |r.value| == |labels|
    ensures r.Some? ==> forall i :: 0 <= i < |labels| ==> r.value[i] == (labels[i] + 1) % 3
  {
    var m := LabelMapping();
    if forall i :: 0 <= i < |labels| ==> labels[i] in m then
      Some(seq(|labels|, i requires 0 <= i < |labels| => m[labels[i]]))
    else
      None
  }

  /** The remap only renames clusters: new cluster `(k + 1) % 3` has exactly
      as many customers as old cluster `k`. */
  lemma RemapKeepsClusterSizes(labels: seq<int>, k: int)
    requires forall i :: 0 <= i < |labels| ==> 0 <= labels[i] < 3
    requires 0 <= k < 3
    ensures RemapLabels(labels).Some?
    ensures Count(RemapLabels(labels).value, (k + 1) % 3) == Count(labels, k)
  {
    CountRotated(labels, RemapLabels(labels).value, k);
  }

  lemma {:induction false} CountRotated(labels: seq<int>, r: seq<int>, k: int)
    requires |r| == |labels|
    requires forall i :: 0 <= i < |labels| ==> 0 <= labels[i] < 3 && r[i] == (labels[i] + 1) % 3
    requires 0 <= k < 3
    ensures Count(r, (k + 1) % 3) == Count(labels, k)
  {
    if labels != [] {
      CountRotated(labels[1..], r[1..], k);
      assert (r[0] == (k + 1) % 3) == (labels[0] == k);
    }
  }

  /** A cleaned customer with its (remapped) `cluster` column. */
  datatype ClusteredCustomer = ClusteredCustomer(features: CustomerFeatures, cluster: int)

  function IdOf(x: ClusteredCustomer): int
  {
    x.features.customerId
  }

  /** No customer id occurs twice in the clustered table. */
  ghost predicate UniqueIds(clustered: seq<ClusteredCustomer>)
  {
    forall i, j :: 0 <= i < j < |clustered| ==> clustered[i].features.customerId != clustered[j].features.customerId
  }

  /** `customer_data_cleaned['cluster'] = new_labels`, row by row. */
  function AssignClusters(cleaned: seq<CustomerFeatures>, labels: seq<int>): (r: seq<ClusteredCustomer>)
    requires |labels| == |cleaned|
    ensures |r| == |cleaned|
    ensures forall i :: 0 <= i < |r| ==> r[i].features == cleaned[i] && r[i].cluster == labels[i]
  {
    seq(|cleaned|, i requires 0 <= i < |cleaned| => ClusteredCustomer(cleaned[i], labels[i]))
  }

  /** The whole of `kmeans_clustering` after the fit: `None` when a label is
      not a key of the mapping. */
  function ClusterCustomers(cleaned: seq<CustomerFeatures>, labels: seq<int>): (r: Option<seq<ClusteredCustomer>>)
    requires |labels| == |cleaned|
    ensures r.Some? <==> forall i :: 0 <= i < |labels| ==> 0 <= labels[i] < 3
    ensures r.Some? ==> |r.value| == |cleaned|
    ensures r.Some? ==> forall i :: 0 <= i < |cleaned| ==>
      r.value[i].features == cleaned[i] && r.value[i].cluster == (labels[i] + 1) % 3
  {
    match RemapLabels(labels)
    case None => None
    case Some(newLabels) => Some(AssignClusters(cleaned, newLabels))
  }
}
