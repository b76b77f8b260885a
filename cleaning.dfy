/** `clean_data`: the chain of row filters and column rewrites that turns the
    raw invoice lines into the cleaned transaction table. Both scripts apply
    the same chain in the same order. */
module Cleaning {
  import opened Seqs
  import opened Transactions

  /** Descriptions of rows that record a service rather than a product,
      compared exactly (before upper-casing). */
  const ServiceRelatedDescriptions: seq<string> := ["Next Day Carriage", "High Resolution Image"]

  predicate HasCustomerAndDescription(x: RawRow)
  {
    x.customerId.Some? && x.description.Some?
  }

  /** `dropna(subset=['CustomerID', 'Description'])`. */
  function DropMissing(raw: seq<RawRow>): (r: seq<RawRow>)
    ensures forall x :: x in r <==> x in raw && x.customerId.Some? && x.description.Some?
  {
    Filter(raw, HasCustomerAndDescription)
  }

  /** `str(InvoiceNo).startswith('C')` decides the transaction status. */
  function StatusOf(invoiceNo: string): (s: Status)
    ensures s == Cancelled <==> "C" <= invoiceNo
  {
    if |invoiceNo| > 0 && invoiceNo[0] == 'C' then Cancelled else Completed
  }

  /** A complete raw row with its `Transaction_Status` column. */
  function WithStatus(x: RawRow): Row
    requires HasCustomerAndDescription(x)
  {
    Row(x.invoiceNo, x.stockCode, x.description.value, x.quantity, x.invoiceDate,
        x.unitPrice, x.customerId.value, x.country, StatusOf(x.invoiceNo))
  }

  /** Adding the status column loses nothing: different complete rows stay
      different. */
  lemma WithStatusInjective(x: RawRow, x': RawRow)
    requires HasCustomerAndDescription(x) && HasCustomerAndDescription(x')
    ensures WithStatus(x) == WithStatus(x') <==> x == x'
  {
  }

  /** Adds the `Transaction_Status` column to every row. */
  function AddStatus(rows: seq<RawRow>): (r: seq<Row>)
    requires forall i :: 0 <= i < |rows| ==> HasCustomerAndDescription(rows[i])
    ensures |r| == |rows|
    ensures forall i :: 0 <= i < |rows| ==> r[i] == WithStatus(rows[i])
    ensures forall y :: y in r <==> exists x :: x in rows && HasCustomerAndDescription(x) && y == WithStatus(x)
    ensures forall y :: y in r ==> (y.status == Cancelled <==> "C" <= y.invoiceNo)
    ensures Distinct(rows) ==> Distinct(r)
  {
    var r := seq(|rows|, i requires 0 <= i < |rows| => WithStatus(rows[i]));
    assert forall i :: 0 <= i < |rows| ==> r[i] == WithStatus(rows[i]);
    assert Distinct(rows) ==> Distinct(r) by {
      if Distinct(rows) {
        forall i, j | 0 <= i < j < |r| ensures r[i] != r[j] {
          WithStatusInjective(rows[i], rows[j]);
        }
      }
    }
    assert forall y :: y in r ==> exists x :: x in rows && HasCustomerAndDescription(x) && y == WithStatus(x) by {
      forall y | y in r ensures exists x :: x in rows && HasCustomerAndDescription(x) && y == WithStatus(x) {
        var i :| 0 <= i < |r| && r[i] == y;
        assert rows[i] in rows;
      }
    }
    assert forall x :: x in rows && HasCustomerAndDescription(x) ==> WithStatus(x) in r by {
      forall x | x in rows && HasCustomerAndDescription(x) ensures WithStatus(x) in r {
        var i :| 0 <= i < |rows| && rows[i] == x;
        assert r[i] == WithStatus(x);
      }
    }
    r
  }

  /** The distinct stock codes of the table, in order of first appearance
      (`StockCode.unique()`). */
  function UniqueStockCodes(rows: seq<Row>): (codes: seq<string>)
    ensures Distinct(codes)
    ensures forall c :: c in codes <==> exists x :: x in rows && x.stockCode == c
  {
    var all := seq(|rows|, i requires 0 <= i < |rows| => rows[i].stockCode);
    assert forall x :: x in rows ==> x.stockCode in all by {
      forall x | x in rows ensures x.stockCode in all {
        var i :| 0 <= i < |rows| && rows[i] == x;
        assert all[i] == x.stockCode;
      }
    }
    DropDuplicates(all)
  }

  /** Stock codes with zero or one digit characters. */
  function AnomalousStockCodes(rows: seq<Row>): (codes: seq<string>)
    ensures forall c :: c in codes <==> (exists x :: x in rows && x.stockCode == c) && DigitCount(c) <= 1
  {
    Filter(UniqueStockCodes(rows), (c: string) => DigitCount(c) in {0, 1})
  }

  /** The test `~StockCode.isin(codes)`. */
  function CodeNotIn(codes: seq<string>): Row -> bool
  {
    (x: Row) => x.stockCode !in codes
  }

  /** Removes the rows whose stock code is anomalous: exactly the rows with
      fewer than two digit characters in their code go. */
  function DropAnomalousStockCodes(rows: seq<Row>): (r: seq<Row>)
    ensures forall x :: x in r <==> x in rows && DigitCount(x.stockCode) >= 2
    ensures Distinct(rows) ==> Distinct(r)
  {
    var keep := CodeNotIn(AnomalousStockCodes(rows));
    assert Distinct(rows) ==> Distinct(Filter(rows, keep)) by {
      if Distinct(rows) { FilterDistinct(rows, keep); }
    }
    Filter(rows, keep)
  }

  /** The first four steps: missing values, duplicates, status, stock codes.
      ver1.py divides by the size of this table. Right after
      `drop_duplicates` no row repeats, and the next two steps keep it so. */
  function CleanThroughStockCodes(raw: seq<RawRow>): (r: seq<Row>)
    ensures forall y :: y in r ==> DigitCount(y.stockCode) >= 2 && (y.status == Cancelled <==> "C" <= y.invoiceNo)
    ensures Distinct(r)
  {
    DropAnomalousStockCodes(AddStatus(DropDuplicates(DropMissing(raw))))
  }

  predicate IsProductRow(x: Row)
  {
    x.description !in ServiceRelatedDescriptions
  }

  /** Removes rows whose description is, exactly, a service description. */
  function DropServiceRows(rows: seq<Row>): (r: seq<Row>)
    ensures forall x :: x in r <==> x in rows && x.description !in ServiceRelatedDescriptions
    ensures Distinct(rows) ==> Distinct(r)
  {
    assert Distinct(rows) ==> Distinct(Filter(rows, IsProductRow)) by {
      if Distinct(rows) { FilterDistinct(rows, IsProductRow); }
    }
    Filter(rows, IsProductRow)
  }

  /** `Description.str.upper()`: every description upper case, nothing else
      changed, row for row. */
  function UppercaseDescriptions(rows: seq<Row>): (r: seq<Row>)
    ensures |r| == |rows|
    ensures forall i :: 0 <= i < |r| ==>
      && r[i].description == Upper(rows[i].description)
      && IsUpper(r[i].description)
      && r[i].(description := rows[i].description) == rows[i]
  {
    var r := seq(|rows|, i requires 0 <= i < |rows| => rows[i].(description := Upper(rows[i].description)));
    assert forall i :: 0 <= i < |r| ==> IsUpper(r[i].description) by {
      forall i | 0 <= i < |r| ensures IsUpper(r[i].description) {
        UpperIdempotent(rows[i].description);
      }
    }
    r
  }

  predicate HasPositivePrice(x: Row)
  {
    x.unitPrice > 0.0
  }

  /** `df[df['UnitPrice'] > 0]`. */
  function KeepPositivePrices(rows: seq<Row>): (r: seq<Row>)
    ensures forall x :: x in r <==> x in rows && x.unitPrice > 0.0
  {
    Filter(rows, HasPositivePrice)
  }

  /** What holds of every row of a cleaned table. */
  ghost predicate CleanRow(y: Row)
  {
    && DigitCount(y.stockCode) >= 2
    && IsUpper(y.description)
    && y.unitPrice > 0.0
    && (y.status == Cancelled <==> "C" <= y.invoiceNo)
  }

  /** The whole of `clean_data`. */
  function Clean(raw: seq<RawRow>): (r: seq<Row>)
    ensures forall y :: y in r ==> CleanRow(y)
  {
    var s := DropServiceRows(CleanThroughStockCodes(raw));
    var u := UppercaseDescriptions(s);
    var r := KeepPositivePrices(u);
    assert forall y :: y in r ==> CleanRow(y) by {
      forall y | y in r ensures CleanRow(y) {
        var i :| 0 <= i < |u| && u[i] == y;
        assert s[i] in s;
        assert y.stockCode == s[i].stockCode && y.status == s[i].status && y.invoiceNo == s[i].invoiceNo;
      }
    }
    r
  }

  /** A raw row that survives every filter of the chain. */
  predicate Kept(x: RawRow)
  {
    && HasCustomerAndDescription(x)
    && DigitCount(x.stockCode) >= 2
    && x.description.value !in ServiceRelatedDescriptions
    && x.unitPrice > 0.0
  }

  /** The cleaned form of a raw row: status added, description upper-cased. */
  function Cleaned(x: RawRow): Row
    requires HasCustomerAndDescription(x)
  {
    var w := WithStatus(x);
    w.(description := Upper(w.description))
  }

  /** Every row left after the status step is a complete raw row with its
      status. */
  lemma StatusStageOrigin(raw: seq<RawRow>, z: Row)
    requires z in AddStatus(DropDuplicates(DropMissing(raw)))
    ensures exists x :: x in raw && HasCustomerAndDescription(x) && z == WithStatus(x)
  {
    var m := DropMissing(raw);
    var x :| x in DropDuplicates(m) && HasCustomerAndDescription(x) && z == WithStatus(x);
    assert x in m;
  }

  /** Every row left after the stock-code step is a complete raw row, with
      its status, whose code has at least two digits. */
  lemma StockCodeStageOrigin(raw: seq<RawRow>, z: Row)
    requires z in CleanThroughStockCodes(raw)
    ensures exists x :: x in raw && HasCustomerAndDescription(x) && DigitCount(x.stockCode) >= 2 && z == WithStatus(x)
  {
    StockCodeStageKeeps(raw, z);
    StatusStageOrigin(raw, z);
    var x :| x in raw && HasCustomerAndDescription(x) && z == WithStatus(x);
    assert x.stockCode == z.stockCode;
  }

  /** The stock-code step only removes rows. */
  lemma StockCodeStageKeeps(raw: seq<RawRow>, z: Row)
    requires z in CleanThroughStockCodes(raw)
    ensures z in AddStatus(DropDuplicates(DropMissing(raw))) && DigitCount(z.stockCode) >= 2
  {
    var a := AddStatus(DropDuplicates(DropMissing(raw)));
    assert CleanThroughStockCodes(raw) == DropAnomalousStockCodes(a);
  }

  /** Every cleaned row is the cleaned form of a kept raw row. */
  lemma CleanedRowOrigin(raw: seq<RawRow>, y: Row)
    requires y in Clean(raw)
    ensures exists x :: x in raw && Kept(x) && y == Cleaned(x)
  {
    var s := DropServiceRows(CleanThroughStockCodes(raw));
    var u := UppercaseDescriptions(s);
    assert y in u && y.unitPrice > 0.0 by {
      assert y in KeepPositivePrices(u);
    }
    var i :| 0 <= i < |u| && u[i] == y;
    var z := s[i];
    assert z in CleanThroughStockCodes(raw) && z.description !in ServiceRelatedDescriptions by {
      assert z in s;
    }
    StockCodeStageOrigin(raw, z);
    var x :| x in raw && HasCustomerAndDescription(x) && DigitCount(x.stockCode) >= 2 && z == WithStatus(x);
    assert y == Cleaned(x);
  }

  /** The complete, de-duplicated rows, each taken from the file at
      increasing positions. */
  lemma DedupStagePositions(raw: seq<RawRow>) returns (idx: seq<nat>)
    ensures var d := DropDuplicates(DropMissing(raw));
      && |idx| == |d| && IncreasingPositions(idx, |raw|)
      && forall k :: 0 <= k < |idx| ==> d[k] == raw[idx[k]] && HasCustomerAndDescription(raw[idx[k]])
  {
    var m := DropMissing(raw);
    assert m == Filter(raw, HasCustomerAndDescription);
    var p := FilterPositions(raw, HasCustomerAndDescription);
    var q := DropDuplicatesPositions(m);
    idx := ComposePositions(p, q, |raw|);
  }

  /** The rows just before upper-casing, each a complete raw row with its
      status, taken from the file at increasing positions. */
  lemma ProductStagePositions(raw: seq<RawRow>) returns (idx: seq<nat>)
    ensures var s := DropServiceRows(CleanThroughStockCodes(raw));
      && |idx| == |s| && IncreasingPositions(idx, |raw|)
      && forall k :: 0 <= k < |idx| ==> HasCustomerAndDescription(raw[idx[k]]) && s[k] == WithStatus(raw[idx[k]])
  {
    var d := DropDuplicates(DropMissing(raw));
    var p := DedupStagePositions(raw);
    var a := AddStatus(d);
    var keep := CodeNotIn(AnomalousStockCodes(a));
    var c := Filter(a, keep);
    assert CleanThroughStockCodes(raw) == c;
    var q := FilterPositions(a, keep);
    var s := Filter(c, IsProductRow);
    assert DropServiceRows(c) == s;
    var t := FilterPositions(c, IsProductRow);
    var qt := ComposePositions(q, t, |a|);
    idx := ComposePositions(p, qt, |raw|);
  }

  /** `clean_data` keeps the order of the file: the cleaned rows are the
      cleaned forms of kept raw rows, taken at increasing positions. */
  lemma CleanKeepsOrder(raw: seq<RawRow>) returns (idx: seq<nat>)
    ensures |idx| == |Clean(raw)| && IncreasingPositions(idx, |raw|)
    ensures forall k :: 0 <= k < |idx| ==> Kept(raw[idx[k]]) && Clean(raw)[k] == Cleaned(raw[idx[k]])
  {
    var s := DropServiceRows(CleanThroughStockCodes(raw));
    var p := ProductStagePositions(raw);
    var u := UppercaseDescriptions(s);
    assert Clean(raw) == Filter(u, HasPositivePrice);
    var q := FilterPositions(u, HasPositivePrice);
    idx := ComposePositions(p, q, |raw|);
    forall k | 0 <= k < |idx| ensures Kept(raw[idx[k]]) && Clean(raw)[k] == Cleaned(raw[idx[k]]) {
      var x := raw[idx[k]];
      var j := q[k];
      assert s[j] == WithStatus(x);
      CleanedAt(s, j, x);
      assert s[j] in s;
    }
  }

  /** Where a kept raw row sits in the table just before upper-casing. */
  lemma KeptRowPosition(raw: seq<RawRow>, x: RawRow) returns (a: nat)
    requires x in raw && Kept(x)
    ensures a < |DropServiceRows(CleanThroughStockCodes(raw))|
    ensures DropServiceRows(CleanThroughStockCodes(raw))[a] == WithStatus(x)
  {
    var m := DropMissing(raw);
    var d := DropDuplicates(m);
    assert forall i :: 0 <= i < |d| ==> HasCustomerAndDescription(d[i]) by {
      forall i | 0 <= i < |d| ensures HasCustomerAndDescription(d[i]) {
        assert d[i] in m;
      }
    }
    var s := DropServiceRows(CleanThroughStockCodes(raw));
    var w := WithStatus(x);
    assert x in m;
    assert w in AddStatus(d);
    assert w in s by {
      assert w in DropAnomalousStockCodes(AddStatus(d));
    }
    a :| a < |s| && s[a] == w;
  }

  /** The raw row behind each row of the table just before upper-casing. */
  lemma RowOrigin(raw: seq<RawRow>, a: nat) returns (x: RawRow)
    requires a < |DropServiceRows(CleanThroughStockCodes(raw))|
    ensures x in raw && HasCustomerAndDescription(x)
    ensures DigitCount(x.stockCode) >= 2 && x.description.value !in ServiceRelatedDescriptions
    ensures DropServiceRows(CleanThroughStockCodes(raw))[a] == WithStatus(x)
  {
    var s := DropServiceRows(CleanThroughStockCodes(raw));
    var z := s[a];
    assert z in CleanThroughStockCodes(raw) && z.description !in ServiceRelatedDescriptions by {
      assert z in s;
    }
    StockCodeStageOrigin(raw, z);
    x :| x in raw && HasCustomerAndDescription(x) && DigitCount(x.stockCode) >= 2 && z == WithStatus(x);
  }

  /** Every kept raw row reaches the cleaned table. */
  lemma KeptRowSurvives(raw: seq<RawRow>, x: RawRow)
    requires x in raw && Kept(x)
    ensures Cleaned(x) in Clean(raw)
  {
    var m := DropMissing(raw);
    var d := DropDuplicates(m);
    assert forall i :: 0 <= i < |d| ==> HasCustomerAndDescription(d[i]) by {
      forall i | 0 <= i < |d| ensures HasCustomerAndDescription(d[i]) {
        assert d[i] in m;
      }
    }
    var a := AddStatus(d);
    var s := DropServiceRows(DropAnomalousStockCodes(a));
    var u := UppercaseDescriptions(s);
    var w := WithStatus(x);
    assert x in m;
    assert w in a;
    assert w in s by {
      assert w in DropAnomalousStockCodes(a);
    }
    var i :| 0 <= i < |s| && s[i] == w;
    assert u[i] == Cleaned(x);
    assert u[i] in u;
  }

  /** Exactly the kept raw rows, cleaned, make up the cleaned table. */
  lemma CleanMembership(raw: seq<RawRow>)
    ensures forall y :: y in Clean(raw) <==> exists x :: x in raw && Kept(x) && y == Cleaned(x)
  {
    forall y | y in Clean(raw) ensures exists x :: x in raw && Kept(x) && y == Cleaned(x) {
      CleanedRowOrigin(raw, y);
    }
    forall x | x in raw && Kept(x) ensures Cleaned(x) in Clean(raw) {
      KeptRowSurvives(raw, x);
    }
  }

  /** Two different kept raw rows that clean to the same row. */
  ghost predicate CleanedTwice(raw: seq<RawRow>, y: Row)
  {
    exists x, x' :: x in raw && x' in raw && x != x' && Kept(x) && Kept(x') && Cleaned(x) == y && Cleaned(x') == y
  }

  /** Upper-casing a row whose origin is `x` gives the cleaned form of `x`. */
  lemma CleanedAt(s: seq<Row>, a: nat, x: RawRow)
    requires a < |s| && HasCustomerAndDescription(x) && s[a] == WithStatus(x)
    ensures UppercaseDescriptions(s)[a] == Cleaned(x)
  {
  }

  /** Two positions of one priced row in the upper-cased table come from
      two different kept raw rows. */
  lemma PositionOrigins(raw: seq<RawRow>, a: nat, b: nat, y: Row)
    requires a < b < |DropServiceRows(CleanThroughStockCodes(raw))|
    requires UppercaseDescriptions(DropServiceRows(CleanThroughStockCodes(raw)))[a] == y
    requires UppercaseDescriptions(DropServiceRows(CleanThroughStockCodes(raw)))[b] == y
    requires y.unitPrice > 0.0
    ensures CleanedTwice(raw, y)
  {
    var s := DropServiceRows(CleanThroughStockCodes(raw));
    var x := RowOrigin(raw, a);
    var x' := RowOrigin(raw, b);
    assert Cleaned(x) == y && Cleaned(x') == y by {
      CleanedAt(s, a, x);
      CleanedAt(s, b, x');
    }
    assert x != x' by {
      assert s[a] != s[b];
      WithStatusInjective(x, x');
    }
    assert Kept(x) && Kept(x');
  }

  /** A repeated cleaned row comes from two different kept raw rows. */
  lemma RepeatOrigins(raw: seq<RawRow>, y: Row)
    requires Count(Clean(raw), y) >= 2
    ensures CleanedTwice(raw, y)
  {
    var s := DropServiceRows(CleanThroughStockCodes(raw));
    var u := UppercaseDescriptions(s);
    assert Count(u, y) >= 2 && HasPositivePrice(y) by {
      assert Clean(raw) == Filter(u, HasPositivePrice);
      FilterCount(u, HasPositivePrice, y);
    }
    var a, b := TwoPositions(u, y);
    PositionOrigins(raw, a, b, y);
  }

  /** Two different kept raw rows with one cleaned form give a repeat. */
  lemma RepeatFromOrigins(raw: seq<RawRow>, x: RawRow, x': RawRow)
    requires x in raw && x' in raw && x != x' && Kept(x) && Kept(x') && Cleaned(x) == Cleaned(x')
    ensures Count(Clean(raw), Cleaned(x)) >= 2
  {
    var y := Cleaned(x);
    var s := DropServiceRows(CleanThroughStockCodes(raw));
    var u := UppercaseDescriptions(s);
    assert Clean(raw) == Filter(u, HasPositivePrice);
    var a := KeptRowPosition(raw, x);
    var b := KeptRowPosition(raw, x');
    WithStatusInjective(x, x');
    assert u[a] == y && u[b] == y;
    if a < b {
      assert 0 <= a < b < |u| && u[a] == y && u[b] == y;
    } else {
      assert 0 <= b < a < |u| && u[b] == y && u[a] == y;
    }
    CountRepeat(u, y);
    FilterCount(u, HasPositivePrice, y);
  }

  /** A row of the cleaned table occurs twice or more exactly when two
      different kept raw rows have it as their cleaned form. `drop_duplicates`
      runs before `str.upper`, so descriptions differing only in case come
      through as two identical cleaned rows. */
  lemma CleanRepeats(raw: seq<RawRow>, y: Row)
    ensures Count(Clean(raw), y) >= 2 <==> CleanedTwice(raw, y)
  {
    if Count(Clean(raw), y) >= 2 {
      RepeatOrigins(raw, y);
    }
    if CleanedTwice(raw, y) {
      var x, x' :| x in raw && x' in raw && x != x' && Kept(x) && Kept(x') && Cleaned(x) == y && Cleaned(x') == y;
      RepeatFromOrigins(raw, x, x');
    }
  }

  /** The cleaned table has no two identical rows exactly when no two
      different kept raw rows clean to the same row. */
  lemma CleanDistinct(raw: seq<RawRow>)
    ensures Distinct(Clean(raw)) <==> !TwoKeptAlike(raw)
  {
    var r := Clean(raw);
    if !Distinct(r) {
      var i, j :| 0 <= i < j < |r| && r[i] == r[j];
      CountRepeat(r, r[i]);
      RepeatOrigins(raw, r[i]);
    }
    if TwoKeptAlike(raw) {
      var x, x' :| x in raw && x' in raw && x != x' && Kept(x) && Kept(x') && Cleaned(x) == Cleaned(x');
      RepeatFromOrigins(raw, x, x');
      CountRepeat(r, Cleaned(x));
    }
  }

  /** Two different raw rows that cleaning keeps and maps to the same row. */
  ghost predicate TwoKeptAlike(raw: seq<RawRow>)
  {
    exists x, x' :: x in raw && x' in raw && x != x' && Kept(x) && Kept(x') && Cleaned(x) == Cleaned(x')
  }

  /** Two invoice lines differing only in the case of their description are
      both kept by `drop_duplicates` and are identical once upper-cased. */
  lemma UppercaseRevivesDuplicates()
    ensures var a := RawRow("536365", "85123", Some("b"), 1, 0, 1.0, Some(1), "UK");
            !Distinct(Clean([a, a.(description := Some("B"))]))
  {
    var a := RawRow("536365", "85123", Some("b"), 1, 0, 1.0, Some(1), "UK");
    var b := a.(description := Some("B"));
    assert Kept(a) && Kept(b) by {
      assert DigitCount("85123") == 5;
    }
    assert Cleaned(a) == Cleaned(b) by {
      assert Upper("b") == "B" by {
        assert UpperChar('b') == "B";
      }
      assert Upper("B") == "B" by {
        assert UpperChar('B') == "B";
      }
    }
    assert a != b by {
      assert a.description != b.description;
    }
    assert TwoKeptAlike([a, b]) by {
      assert a in [a, b] && b in [a, b];
    }
    CleanDistinct([a, b]);
  }
}
