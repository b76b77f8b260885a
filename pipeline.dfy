/** `RecommendationSystem`: the object whose stage methods each read the
    frames the earlier stages left in its fields and overwrite their own.
    Loading reads a CSV file, so the rows it would read are passed in; the
    isolation forest and k-means fits are passed in as their outputs. A
    stage that runs before the one it depends on fails in the source on a
    `None` field; here it reports `MissingInput` and changes nothing. */
module Pipeline {
  import opened Seqs
  import opened Transactions
  import opened Cleaning
  import opened Features
  import opened Segmentation
  import opened Products
  import opened Recommender

  /** What `self.df` holds: nothing yet, the loaded file, or the cleaned
      transaction table. */
  datatype Frame = NoFrame | RawFrame(raw: seq<RawRow>) | CleanFrame(rows: seq<Row>)

  datatype StageError =
    | MissingInput
    | LabelNotInMapping
    | FrameFailed(reason: FrameError)

  /** Every row of the table is a cleaned row. */
  ghost predicate CleanTable(rows: seq<Row>)
  {
    forall y :: y in rows ==> CleanRow(y)
  }

  /** Every label is one of the three clusters. */
  ghost predicate LabelsInRange(labels: seq<int>)
  {
    forall i :: 0 <= i < |labels| ==> 0 <= labels[i] < 3
  }

  /** What holds between the fields after every stage: the cleaned table
      holds only clean rows, customer tables are ordered by id, and a
      cluster column has one label in 0..2 per cleaned customer. */
  ghost predicate Consistent(df: Frame, customerData: Option<seq<CustomerFeatures>>,
                             customerDataCleaned: Option<seq<CustomerFeatures>>,
                             outliersData: Option<seq<CustomerFeatures>>, cluster: Option<seq<int>>)
  {
    && (df.CleanFrame? ==> CleanTable(df.rows))
    && (customerData.Some? ==> AscendingIds(customerData.value))
    && (customerDataCleaned.Some? ==> AscendingIds(customerDataCleaned.value))
    && (outliersData.Some? ==> AscendingIds(outliersData.value))
    && (cluster.Some? ==>
          && customerDataCleaned.Some?
          && |cluster.value| == |customerDataCleaned.value|
          && LabelsInRange(cluster.value))
  }

  /** What `recommendation_system` makes of the fields it reads: a missing
      input when the cleaned table, the outliers or the cluster column is
      absent; otherwise the recommendations over the clustered customers,
      joined back to them, or the reason building that frame fails. A
      frame that is built has at least ten rows, and each row that found a
      customer carries that customer's features, id and cluster. */
  function RecommendationStage(df: Frame, customerDataCleaned: Option<seq<CustomerFeatures>>,
                               outliersData: Option<seq<CustomerFeatures>>, cluster: Option<seq<int>>)
    : (res: Result<seq<CustomerRecommendation>, StageError>)
    requires cluster.Some? ==> customerDataCleaned.Some? && |cluster.value| == |customerDataCleaned.value|
    ensures res == Failure(MissingInput) <==> !df.CleanFrame? || cluster.None? || outliersData.None?
    ensures res.Failure? && res.error != MissingInput ==> res.error.FrameFailed?
    ensures res.Success? ==>
      var clustered := AssignClusters(customerDataCleaned.value, cluster.value);
      && |res.value| >= 10
      && |res.value| >= |AllRecommendations(df.rows, outliersData.value, clustered)|
      && forall y :: y in res.value && y.features.Some? ==>
           exists x :: x in clustered && x.features == y.features.value
             && x.features.customerId == y.customerId && x.cluster == y.cluster
    ensures res.Failure? && res.error == FrameFailed(ColumnCountMismatch) <==>
      && df.CleanFrame? && cluster.Some? && outliersData.Some?
      && var recs := AllRecommendations(df.rows, outliersData.value, AssignClusters(customerDataCleaned.value, cluster.value));
         recs != [] && ((forall r :: r in recs ==> |r.picks| < 3) || (exists r :: r in recs && |r.picks| > 3))
  {
    if !df.CleanFrame? || cluster.None? || outliersData.None? then Failure(MissingInput)
    else
      var clustered := AssignClusters(customerDataCleaned.value, cluster.value);
      var out := RecommendationOutput(clustered, AllRecommendations(df.rows, outliersData.value, clustered));
      if out.Failure? then Failure(FrameFailed(out.error)) else Success(out.value)
  }

  /** The steps of `recommendation_system` on the fields' values: report a
      missing input, or build the recommendations and the joined frame. */
  method BuildStage(df: Frame, customerDataCleaned: Option<seq<CustomerFeatures>>,
                    outliersData: Option<seq<CustomerFeatures>>, cluster: Option<seq<int>>)
    returns (res: Result<seq<CustomerRecommendation>, StageError>)
    requires cluster.Some? ==> customerDataCleaned.Some? && |cluster.value| == |customerDataCleaned.value|
    ensures res == RecommendationStage(df, customerDataCleaned, outliersData, cluster)
  {
    if !df.CleanFrame? || cluster.None? || outliersData.None? {
      return Failure(MissingInput);
    }
    var out := RecommendationFrame(df.rows, outliersData.value, customerDataCleaned.value, cluster.value);
    if out.Failure? {
      res := Failure(FrameFailed(out.error));
    } else {
      res := Success(out.value);
    }
  }

  class RecommendationSystem {
    var filePath: string
    var df: Frame
    var customerData: Option<seq<CustomerFeatures>>
    var customerDataCleaned: Option<seq<CustomerFeatures>>
    var outliersData: Option<seq<CustomerFeatures>>
    /** The `cluster` column `kmeans_clustering` adds to
        `customer_data_cleaned`. */
    var cluster: Option<seq<int>>
    var customerDataWithRecommendations: Option<seq<CustomerRecommendation>>

    /** What holds between the fields after every stage: the cleaned table
        holds only clean rows, customer tables are ordered by id, and a
        cluster column has one label in 0..2 per cleaned customer. */
    ghost predicate Valid()
      reads this`df, this`customerData, this`customerDataCleaned, this`outliersData, this`cluster
    {
      Consistent(df, customerData, customerDataCleaned, outliersData, cluster)
    }

    constructor (path: string)
      ensures Valid()
      ensures filePath == path && df == NoFrame
      ensures customerData == None && customerDataCleaned == None && outliersData == None
      ensures cluster == None && customerDataWithRecommendations == None
    {
      filePath := path;
      df := NoFrame;
      customerData := None;
      customerDataCleaned := None;
      outliersData := None;
      cluster := None;
      customerDataWithRecommendations := None;
    }

    /** `load_data`, with the rows of the file as the argument. */
    method LoadData(contents: seq<RawRow>)
      requires Valid()
      modifies this
      ensures Valid()
      ensures df == RawFrame(contents)
      ensures filePath == old(filePath) && customerData == old(customerData)
      ensures customerDataCleaned == old(customerDataCleaned) && outliersData == old(outliersData)
      ensures cluster == old(cluster) && customerDataWithRecommendations == old(customerDataWithRecommendations)
    {
      df := RawFrame(contents);
    }

    /** `clean_data`: replaces the loaded frame by the cleaned table. */
    method CleanData() returns (err: Option<StageError>)
      requires Valid()
      modifies this
      ensures Valid()
      ensures err.None? <==> old(df).RawFrame?
      ensures err.None? ==> df == CleanFrame(Clean(old(df).raw))
      ensures err.Some? ==> err.value == MissingInput && df == old(df)
      ensures filePath == old(filePath) && customerData == old(customerData)
      ensures customerDataCleaned == old(customerDataCleaned) && outliersData == old(outliersData)
      ensures cluster == old(cluster) && customerDataWithRecommendations == old(customerDataWithRecommendations)
    {
      if !df.RawFrame? {
        return Some(MissingInput);
      }
      df := CleanFrame(Clean(df.raw));
      err := None;
    }

    /** `feature_engineer`, its discrete columns: builds `customer_data`. */
    method FeatureEngineer() returns (err: Option<StageError>)
      requires Valid()
      modifies this
      ensures Valid()
      ensures err.None? <==> df.CleanFrame?
      ensures err.None? ==> customerData == Some(FeatureTable(df.rows))
      ensures err.Some? ==> err.value == MissingInput && customerData == old(customerData)
      ensures filePath == old(filePath) && df == old(df)
      ensures customerDataCleaned == old(customerDataCleaned) && outliersData == old(outliersData)
      ensures cluster == old(cluster) && customerDataWithRecommendations == old(customerDataWithRecommendations)
    {
      if !df.CleanFrame? {
        return Some(MissingInput);
      }
      FeatureTableFacts(df.rows);
      customerData := Some(FeatureTable(df.rows));
      err := None;
    }

    /** `fix_outlier`, given the isolation forest's score for each customer:
        splits `customer_data` into the cleaned customers and the outliers. */
    method FixOutlier(scores: seq<int>) returns (err: Option<StageError>)
      requires Valid()
      requires customerData.Some? ==> |scores| == |customerData.value|
      modifies this
      ensures Valid()
      ensures filePath == old(filePath) && df == old(df) && customerData == old(customerData)
      ensures customerDataWithRecommendations == old(customerDataWithRecommendations)
      ensures err.None? <==> customerData.Some?
      ensures err.None? ==>
        && customerDataCleaned == Some(Inliers(customerData.value, scores))
        && outliersData == Some(Outliers(customerData.value, scores))
        && cluster == None
      ensures err.Some? ==>
        && err.value == MissingInput
        && customerDataCleaned == old(customerDataCleaned)
        && outliersData == old(outliersData)
        && cluster == old(cluster)
    {
      if customerData.None? {
        return Some(MissingInput);
      }
      PartitionKeepsOrder(customerData.value, scores);
      customerDataCleaned := Some(Inliers(customerData.value, scores));
      outliersData := Some(Outliers(customerData.value, scores));
      cluster := None;
      err := None;
    }

    /** `kmeans_clustering`, given the k-means labels of the cleaned
        customers: stores the remapped labels as the `cluster` column. */
    method KMeansClustering(labels: seq<int>) returns (err: Option<StageError>)
      requires Valid()
      requires customerDataCleaned.Some? ==> |labels| == |customerDataCleaned.value|
      modifies this
      ensures Valid()
      ensures err.None? <==> old(customerDataCleaned).Some? && RemapLabels(labels).Some?
      ensures err.None? ==> cluster == RemapLabels(labels)
      ensures err.Some? ==> cluster == old(cluster)
      ensures err == Some(LabelNotInMapping) <==> old(customerDataCleaned).Some? && RemapLabels(labels).None?
      ensures filePath == old(filePath) && df == old(df) && customerData == old(customerData)
      ensures customerDataCleaned == old(customerDataCleaned) && outliersData == old(outliersData)
      ensures customerDataWithRecommendations == old(customerDataWithRecommendations)
    {
      if customerDataCleaned.None? {
        return Some(MissingInput);
      }
      var remapped := RemapLabels(labels);
      if remapped.None? {
        return Some(LabelNotInMapping);
      }
      cluster := remapped;
      err := None;
    }

    /** `recommendation_system`: stores the frame `RecommendationStage`
        builds from the fields, unless building it fails. */
    method RecommendationSystem() returns (err: Option<StageError>)
      requires Valid()
      modifies this`customerDataWithRecommendations
      ensures Valid()
      ensures var res := RecommendationStage(old(df), old(customerDataCleaned), old(outliersData), old(cluster));
        && (res.Success? ==> err == None && customerDataWithRecommendations == Some(res.value))
        && (res.Failure? ==> err == Some(res.error) && customerDataWithRecommendations == old(customerDataWithRecommendations))
    {
      var res := BuildStage(df, customerDataCleaned, outliersData, cluster);
      err := Store(res);
    }

    /** Stores a built frame; a failure leaves the stored frame as it was. */
    method Store(res: Result<seq<CustomerRecommendation>, StageError>) returns (err: Option<StageError>)
      requires Valid()
      modifies this`customerDataWithRecommendations
      ensures Valid()
      ensures res.Success? ==> err == None && customerDataWithRecommendations == Some(res.value)
      ensures res.Failure? ==> err == Some(res.error) && customerDataWithRecommendations == old(customerDataWithRecommendations)
    {
      if res.Success? {
        customerDataWithRecommendations := Some(res.value);
        err := None;
      } else {
        err := Some(res.error);
      }
    }
  }
}
