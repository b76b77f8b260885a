/** ver1.py: the same pipeline as free functions over frames passed in and
    returned. Two things differ from the class: `clean_data` also computes
    the share of service rows, dividing by the row count, and so raises
    `ZeroDivisionError` when no row survives the stock-code step; and
    `recommendation_system` reads the module's `df` and writes its result to
    a file instead of storing it, so here the table is an argument and the
    frame the result. */
module Ver1 {
  import opened Seqs
  import opened Transactions
  import opened Cleaning
  import opened Features
  import opened Segmentation
  import opened Products
  import opened Recommender

  datatype Ver1Error =
    | ZeroDivision
    | LabelNotInMapping
    | FrameFailed(reason: FrameError)

  /** The rows whose description is, exactly, a service description. */
  function ServiceRows(rows: seq<Row>): (r: seq<Row>)
    ensures forall x :: x in r <==> x in rows && x.description in ServiceRelatedDescriptions
  {
    Filter(rows, (x: Row) => x.description in ServiceRelatedDescriptions)
  }

  /** `service_related_percentage`: the number of service rows over the
      number of rows, times 100; `None` where Python divides by zero. */
  function ServiceRelatedPercentage(rows: seq<Row>): (p: Option<real>)
    ensures p.None? <==> rows == []
    ensures p.Some? ==> 0.0 <= p.value <= 100.0
    ensures p.Some? ==> (p.value == 0.0 <==> forall x :: x in rows ==> x.description !in ServiceRelatedDescriptions)
  {
    if |rows| == 0 then None
    else
      var service := ServiceRows(rows);
      assert service == [] <==> forall x :: x in rows ==> x.description !in ServiceRelatedDescriptions by {
        if service != [] { assert service[0] in service; }
      }
      PercentageBounds(|service|, |rows|);
      Some((|service| as real) / (|rows| as real) * 100.0)
  }

  lemma PercentageBounds(k: nat, n: nat)
    requires 0 < n && k <= n
    ensures 0.0 <= (k as real) / (n as real) * 100.0 <= 100.0
    ensures (k as real) / (n as real) * 100.0 == 0.0 <==> k == 0
  {
    var q := (k as real) / (n as real);
    assert q * (n as real) == k as real;
    assert q <= 1.0 by {
      if q > 1.0 { assert q * (n as real) > n as real; }
    }
  }

  /** `clean_data`: the cleaned table, or `ZeroDivisionError` when the
      stock-code step leaves no row. */
  function CleanData(df: seq<RawRow>): (r: Result<seq<Row>, Ver1Error>)
    ensures r.Failure? <==> CleanThroughStockCodes(df) == []
    ensures r.Failure? ==> r.error == ZeroDivision
    ensures r.Success? ==> r.value == Clean(df)
  {
    var s := CleanThroughStockCodes(df);
    match ServiceRelatedPercentage(s)
    case None => Failure(ZeroDivision)
    case Some(_) => Success(KeepPositivePrices(UppercaseDescriptions(DropServiceRows(s))))
  }

  /** A table with no complete row makes `clean_data` raise, where the
      class method returns an empty table. */
  lemma CleanDataFailsWithoutCompleteRows(df: seq<RawRow>)
    requires forall x :: x in df ==> x.customerId.None?
    ensures CleanData(df) == Failure(ZeroDivision)
    ensures Clean(df) == []
  {
    var s := CleanThroughStockCodes(df);
    if s != [] {
      StockCodeStageOrigin(df, s[0]);
    }
  }

  /** `feature_engineer`: returns the (column-extended) table and the
      customer table. */
  function FeatureEngineer(df: seq<Row>): (r: (seq<Row>, seq<CustomerFeatures>))
    ensures r.0 == df
    ensures AscendingIds(r.1)
    ensures forall f :: f in r.1 ==> HasGaps(df, f.customerId) && f == CustomerFeaturesOf(df, f.customerId)
    ensures forall id :: HasGaps(df, id) ==> exists f :: f in r.1 && f.customerId == id
  {
    FeatureTableFacts(df);
    (df, FeatureTable(df))
  }

  /** `fix_outlier`, given the isolation forest's scores: the cleaned
      customers and the outliers, both still ordered by id. */
  function FixOutlier(customerData: seq<CustomerFeatures>, scores: seq<int>): (r: (seq<CustomerFeatures>, seq<CustomerFeatures>))
    requires |scores| == |customerData|
    requires AscendingIds(customerData)
    ensures r == (Inliers(customerData, scores), Outliers(customerData, scores))
    ensures AscendingIds(r.0) && AscendingIds(r.1)
    ensures multiset(r.0) + multiset(r.1) == multiset(customerData)
  {
    PartitionKeepsOrder(customerData, scores);
    PartitionIsComplete(customerData, scores);
    (Inliers(customerData, scores), Outliers(customerData, scores))
  }

  /** `kmeans_clustering`, given the k-means labels: the cleaned customers
      with the remapped `cluster` column, or `KeyError` for a label the
      mapping lacks. */
  function KMeansClustering(cleaned: seq<CustomerFeatures>, labels: seq<int>): (r: Result<seq<ClusteredCustomer>, Ver1Error>)
    requires |labels| == |cleaned|
    ensures r.Failure? <==> exists i :: 0 <= i < |labels| && !(0 <= labels[i] < 3)
    ensures r.Failure? ==> r.error == LabelNotInMapping
    ensures r.Success? ==> |r.value| == |cleaned| && forall i :: 0 <= i < |cleaned| ==>
      r.value[i].features == cleaned[i] && r.value[i].cluster == (labels[i] + 1) % 3
  {
    match ClusterCustomers(cleaned, labels)
    case None => Failure(LabelNotInMapping)
    case Some(clustered) => Success(clustered)
  }

  /** `recommendation_system`, with the transaction table as an argument:
      the frame written to the output file, or the error building it. */
  method RecommendationSystem(df: seq<Row>, customerDataCleaned: seq<ClusteredCustomer>,
                              outliersData: seq<CustomerFeatures>) returns (out: Result<seq<CustomerRecommendation>, Ver1Error>)
    ensures var expected := RecommendationOutput(customerDataCleaned, AllRecommendations(df, outliersData, customerDataCleaned));
      && (out.Success? <==> expected.Success?)
      && (out.Success? ==> out.value == expected.value)
      && (out.Failure? ==> out.error == FrameFailed(expected.error))
  {
    var recs := Recommender.RecommendationSystem(df, outliersData, customerDataCleaned);
    var frame := RecommendationOutput(customerDataCleaned, recs);
    if frame.Failure? {
      return Failure(FrameFailed(frame.error));
    }
    return Success(frame.value);
  }
}
