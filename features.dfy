/** The discrete part of `feature_engineer`: per-customer aggregates of the
    cleaned transaction table, joined on `CustomerID`. Dates are day numbers
    and quantities integers; the floating-point columns (spend, averages,
    monthly statistics, trend) are not part of this model. */
module Features {
  import opened Seqs
  import opened Ordering
  import opened Transactions

  const UnitedKingdom: string := "United Kingdom"

  /** One row of the customer feature table. `daysBetweenPurchases` holds the
      day gaps whose mean the source stores as
      `Average_Days_Between_Purchases`. */
  datatype CustomerFeatures = CustomerFeatures(
    customerId: int,
    daysSinceLastPurchase: int,
    totalTransactions: nat,
    totalProductsPurchased: int,
    uniqueProductsPurchased: nat,
    daysBetweenPurchases: seq<int>,
    dayOfWeek: int,
    hour: int,
    isUK: int,
    cancellationFrequency: nat)

  /** The rows of one `groupby('CustomerID')` group, in table order. */
  function CustomerRows(rows: seq<Row>, id: int): (r: seq<Row>)
    ensures forall x :: x in r <==> x in rows && x.customerId == id
  {
    Filter(rows, (x: Row) => x.customerId == id)
  }

  /** `InvoiceDay.max()`. */
  function MaxDay(rows: seq<Row>): (m: int)
    requires |rows| > 0
    ensures forall x :: x in rows ==> InvoiceDay(x) <= m
    ensures exists x :: x in rows && InvoiceDay(x) == m
  {
    if |rows| == 1 then InvoiceDay(rows[0])
    else
      var rest := MaxDay(rows[1..]);
      assert forall x :: x in rows ==> x == rows[0] || x in rows[1..];
      if InvoiceDay(rows[0]) > rest then InvoiceDay(rows[0]) else rest
  }

  /** `Days_Since_Last_Purchase`: the most recent day of the whole table
      minus the customer's most recent day. */
  function DaysSinceLastPurchase(rows: seq<Row>, id: int): (d: int)
    requires exists x :: x in rows && x.customerId == id
    ensures d >= 0
    ensures forall x :: x in rows && x.customerId == id ==> InvoiceDay(x) + d <= MaxDay(rows)
    ensures exists x :: x in rows && x.customerId == id && InvoiceDay(x) + d == MaxDay(rows)
  {
    var mine := CustomerRows(rows, id);
    var x :| x in rows && x.customerId == id;
    assert x in mine;
    MaxDay(rows) - MaxDay(mine)
  }

  /** The distinct invoice numbers of some rows (`InvoiceNo.nunique()` is
      its size): at least one for a non-empty group, at most one per row. */
  function Invoices(rows: seq<Row>): (s: set<string>)
    ensures forall v :: v in s <==> exists x :: x in rows && x.invoiceNo == v
    ensures |s| <= |rows|
    ensures rows != [] ==> |s| >= 1
  {
    Values(rows, (x: Row) => x.invoiceNo)
  }

  /** The distinct invoice numbers of the cancelled rows among `rows`. */
  function CancelledInvoices(rows: seq<Row>): (s: set<string>)
    ensures s <= Invoices(rows)
  {
    set x | x in rows && x.status == Cancelled :: x.invoiceNo
  }

  /** The distinct stock codes of some rows (`StockCode.nunique()` is its
      size): at least one for a non-empty group, at most one per row. */
  function StockCodes(rows: seq<Row>): (s: set<string>)
    ensures forall c :: c in s <==> exists x :: x in rows && x.stockCode == c
    ensures |s| <= |rows|
    ensures rows != [] ==> |s| >= 1
  {
    Values(rows, (x: Row) => x.stockCode)
  }

  /** `Quantity.sum()`: not negative when no row is a return, not positive
      when every row is one. */
  function SumQuantity(rows: seq<Row>): (q: int)
    ensures (forall i :: 0 <= i < |rows| ==> rows[i].quantity >= 0) ==> q >= 0
    ensures (forall i :: 0 <= i < |rows| ==> rows[i].quantity <= 0) ==> q <= 0
  {
    if rows == [] then 0
    else
      assert forall i :: 1 <= i < |rows| ==> rows[1..][i - 1] == rows[i];
      rows[0].quantity + SumQuantity(rows[1..])
  }

  lemma {:induction false} SumQuantityAppend(a: seq<Row>, b: seq<Row>)
    ensures SumQuantity(a + b) == SumQuantity(a) + SumQuantity(b)
  {
    if a == [] {
      assert a + b == b;
    } else {
      assert (a + b)[1..] == a[1..] + b;
      SumQuantityAppend(a[1..], b);
    }
  }

  /** The three per-group aggregates split over any split of the group's
      rows: invoices and stock codes are unions, quantities add up. */
  lemma AggregatesSplit(a: seq<Row>, b: seq<Row>)
    ensures Invoices(a + b) == Invoices(a) + Invoices(b)
    ensures StockCodes(a + b) == StockCodes(a) + StockCodes(b)
    ensures SumQuantity(a + b) == SumQuantity(a) + SumQuantity(b)
  {
    ValuesAppend(a, b, (x: Row) => x.invoiceNo);
    ValuesAppend(a, b, (x: Row) => x.stockCode);
    SumQuantityAppend(a, b);
  }

  /** The `cancellation_frequency` table: one entry per customer with at
      least one cancelled row, holding that customer's number of distinct
      cancelled invoices, between one and the customer's distinct invoices. */
  function CancellationTable(rows: seq<Row>): (t: map<int, nat>)
    ensures forall id :: id in t <==> exists x :: x in rows && x.customerId == id && x.status == Cancelled
    ensures forall id :: id in t ==> t[id] == |CancelledInvoices(CustomerRows(rows, id))|
    ensures forall id :: id in t ==> 1 <= t[id] <= |Invoices(CustomerRows(rows, id))|
  {
    var ids := set x | x in rows && x.status == Cancelled :: x.customerId;
    var t := map id | id in ids :: |CancelledInvoices(CustomerRows(rows, id))|;
    assert forall id :: id in t <==> exists x :: x in rows && x.customerId == id && x.status == Cancelled by {
      forall id | exists x :: x in rows && x.customerId == id && x.status == Cancelled ensures id in t {
        var x :| x in rows && x.customerId == id && x.status == Cancelled;
        assert id in ids;
      }
    }
    assert forall id :: id in t ==> 1 <= t[id] <= |Invoices(CustomerRows(rows, id))| by {
      forall id | id in t ensures 1 <= t[id] <= |Invoices(CustomerRows(rows, id))| {
        CancelledCustomerBounds(rows, id);
      }
    }
    t
  }

  /** A customer with a cancelled row has between one and all of their
      distinct invoices cancelled. */
  lemma CancelledCustomerBounds(rows: seq<Row>, id: int)
    requires exists x :: x in rows && x.customerId == id && x.status == Cancelled
    ensures 1 <= |CancelledInvoices(CustomerRows(rows, id))| <= |Invoices(CustomerRows(rows, id))|
  {
    var mine := CustomerRows(rows, id);
    var x :| x in rows && x.customerId == id && x.status == Cancelled;
    assert x in mine && x.invoiceNo in CancelledInvoices(mine);
    CardinalityOfSubset(CancelledInvoices(mine), Invoices(mine));
  }

  /** `Cancellation_Frequency` after the left merge and `fillna(0)`: the
      number of distinct cancelled invoices, 0 for a customer without any,
      never more than the customer's distinct invoices. */
  function CancellationFrequency(rows: seq<Row>, id: int): (n: nat)
    ensures n == |CancelledInvoices(CustomerRows(rows, id))|
    ensures n <= |Invoices(CustomerRows(rows, id))|
  {
    var t := CancellationTable(rows);
    var mine := CustomerRows(rows, id);
    assert id !in t ==> CancelledInvoices(mine) == {} by {
      if id !in t {
        forall x | x in mine ensures x.status != Cancelled { }
      }
    }
    CardinalityOfSubset(CancelledInvoices(mine), Invoices(mine));
    if id in t then t[id] else 0
  }

  lemma {:induction false} CardinalityOfSubset<T>(a: set<T>, b: set<T>)
    requires a <= b
    ensures |a| <= |b|
  {
    if a != {} {
      var x :| x in a;
      CardinalityOfSubset(a - {x}, b - {x});
    }
  }

  /** The `Day_Of_Week` column of some rows: weekdays 0 to 6, each occurring
      as often as there are rows on that weekday, the group size that
      `groupby('Day_Of_Week').size()` reports. */
  function DaysOfWeek(rows: seq<Row>): (d: seq<int>)
    ensures |d| == |rows|
    ensures forall i :: 0 <= i < |rows| ==> 0 <= d[i] < 7 && d[i] == DayOfWeek(rows[i])
    ensures forall v :: Count(d, v) == |Filter(rows, Matches(DayOfWeek, v))|
  {
    var d := Column(rows, DayOfWeek);
    assert forall v :: Count(d, v) == |Filter(rows, Matches(DayOfWeek, v))| by {
      forall v ensures Count(d, v) == |Filter(rows, Matches(DayOfWeek, v))| {
        CountColumn(rows, DayOfWeek, v);
      }
    }
    d
  }

  /** The `Hour` column, hours 0 to 23, each occurring as often as there are
      rows in that hour. */
  function Hours(rows: seq<Row>): (h: seq<int>)
    ensures |h| == |rows|
    ensures forall i :: 0 <= i < |rows| ==> 0 <= h[i] < 24 && h[i] == Hour(rows[i])
    ensures forall v :: Count(h, v) == |Filter(rows, Matches(Hour, v))|
  {
    var h := Column(rows, Hour);
    assert forall v :: Count(h, v) == |Filter(rows, Matches(Hour, v))| by {
      forall v ensures Count(h, v) == |Filter(rows, Matches(Hour, v))| {
        CountColumn(rows, Hour, v);
      }
    }
    h
  }

  function CountryOf(x: Row): string
  {
    x.country
  }

  /** The `Country` column, each country occurring as often as there are
      rows from it. */
  function Countries(rows: seq<Row>): (c: seq<string>)
    ensures |c| == |rows|
    ensures forall i :: 0 <= i < |rows| ==> c[i] == rows[i].country
    ensures forall v :: Count(c, v) == |Filter(rows, Matches(CountryOf, v))|
  {
    var c := Column(rows, CountryOf);
    assert forall v :: Count(c, v) == |Filter(rows, Matches(CountryOf, v))| by {
      forall v ensures Count(c, v) == |Filter(rows, Matches(CountryOf, v))| {
        CountColumn(rows, CountryOf, v);
      }
    }
    c
  }

  /** The favourite shopping day: a weekday with the largest number of the
      customer's rows, the smallest such weekday on a tie. */
  function FavoriteDayOfWeek(mine: seq<Row>): (d: int)
    requires |mine| > 0
    ensures 0 <= d < 7
    ensures d in DaysOfWeek(mine)
    ensures forall v :: Count(DaysOfWeek(mine), v) <= Count(DaysOfWeek(mine), d)
    ensures forall v :: v < d ==> Count(DaysOfWeek(mine), v) < Count(DaysOfWeek(mine), d)
  {
    MostFrequent(DaysOfWeek(mine), 7)
  }

  /** The favourite shopping hour, chosen the same way. */
  function FavoriteHour(mine: seq<Row>): (h: int)
    requires |mine| > 0
    ensures 0 <= h < 24
    ensures h in Hours(mine)
    ensures forall v :: Count(Hours(mine), v) <= Count(Hours(mine), h)
    ensures forall v :: v < h ==> Count(Hours(mine), v) < Count(Hours(mine), h)
  {
    MostFrequent(Hours(mine), 24)
  }

  /** `Is_UK`: 1 when the customer's most frequent country is the United
      Kingdom. The source breaks ties between equally frequent countries by
      an unstable sort; this model takes the first in country order, so the
      contract only says what holds whichever way a tie goes. */
  function IsUK(mine: seq<Row>): (flag: int)
    requires |mine| > 0
    ensures flag == 0 || flag == 1
    ensures flag == 1 ==> forall c :: Count(Countries(mine), c) <= Count(Countries(mine), UnitedKingdom)
    ensures (forall c :: c != UnitedKingdom ==> Count(Countries(mine), c) < Count(Countries(mine), UnitedKingdom))
              ==> flag == 1
  {
    var countries := Countries(mine);
    StrLessIsStrictTotal();
    SortDistinctFacts(countries, StrLess);
    var keys := SortDistinct(countries, StrLess);
    assert countries[0] in keys;
    var j := ArgMaxCount(countries, keys);
    MaxOverAllValues(countries, keys, j);
    assert (forall c :: c != UnitedKingdom ==> Count(countries, c) < Count(countries, UnitedKingdom))
             ==> keys[j] == UnitedKingdom;
    if keys[j] == UnitedKingdom then 1 else 0
  }

  /** The day gaps between consecutive rows of one customer, in table order
      (`InvoiceDay.diff().dropna()`): one fewer than the rows, so none for a
      single row. */
  function DayGaps(mine: seq<Row>): (g: seq<int>)
    ensures |g| == if |mine| == 0 then 0 else |mine| - 1
    ensures forall i :: 0 <= i < |g| ==> InvoiceDay(mine[i]) + g[i] == InvoiceDay(mine[i + 1])
  {
    if |mine| == 0 then []
    else seq(|mine| - 1, i requires 0 <= i < |mine| - 1 => InvoiceDay(mine[i + 1]) - InvoiceDay(mine[i]))
  }

  function Sum(s: seq<int>): int
  {
    if s == [] then 0 else Sum(s[..|s| - 1]) + s[|s| - 1]
  }

  /** The gaps add up to the span from the customer's first row to the last. */
  lemma {:induction false} DayGapsTelescope(mine: seq<Row>)
    requires |mine| > 0
    ensures Sum(DayGaps(mine)) == InvoiceDay(mine[|mine| - 1]) - InvoiceDay(mine[0])
  {
    if |mine| > 1 {
      var n := |mine| - 1;
      var init := mine[..n];
      DayGapsTelescope(init);
      var g := DayGaps(mine);
      var h := DayGaps(init);
      assert |h| == n - 1 && |g| == n;
      assert forall i :: 0 <= i < n - 1 ==> g[i] == h[i] by {
        forall i | 0 <= i < n - 1 ensures g[i] == h[i] {
          assert InvoiceDay(mine[i]) + g[i] == InvoiceDay(mine[i + 1]);
          assert InvoiceDay(init[i]) + h[i] == InvoiceDay(init[i + 1]);
        }
      }
      assert g[..n - 1] == h;
      assert Sum(g) == Sum(h) + g[n - 1];
      assert InvoiceDay(mine[n - 1]) + g[n - 1] == InvoiceDay(mine[n]);
      assert init[n - 1] == mine[n - 1] && init[0] == mine[0];
    } else {
      assert DayGaps(mine) == [];
    }
  }

  /** The aggregates of one customer with at least two rows: each column
      holds the aggregate of the customer's group that the source computes
      for it, so what is proved of those aggregates holds of the record. */
  function CustomerFeaturesOf(rows: seq<Row>, id: int): (f: CustomerFeatures)
    requires |CustomerRows(rows, id)| >= 2
    ensures f.customerId == id && exists x :: x in rows && x.customerId == id
    ensures var mine := CustomerRows(rows, id);
      && f.daysSinceLastPurchase == DaysSinceLastPurchase(rows, id)
      && f.totalTransactions == |Invoices(mine)|
      && f.totalProductsPurchased == SumQuantity(mine)
      && f.uniqueProductsPurchased == |StockCodes(mine)|
      && f.daysBetweenPurchases == DayGaps(mine)
      && f.dayOfWeek == FavoriteDayOfWeek(mine)
      && f.hour == FavoriteHour(mine)
      && f.isUK == IsUK(mine)
      && f.cancellationFrequency == CancellationFrequency(rows, id)
    ensures f.daysSinceLastPurchase >= 0
    ensures 1 <= f.totalTransactions && 1 <= f.uniqueProductsPurchased
    ensures f.cancellationFrequency <= f.totalTransactions
    ensures |f.daysBetweenPurchases| >= 1
    ensures 0 <= f.dayOfWeek < 7 && 0 <= f.hour < 24
    ensures f.isUK == 0 || f.isUK == 1
  {
    var mine := CustomerRows(rows, id);
    assert mine[0] in mine;
    assert mine[0].invoiceNo in Invoices(mine);
    assert mine[0].stockCode in StockCodes(mine);
    CustomerFeatures(
      id,
      DaysSinceLastPurchase(rows, id),
      |Invoices(mine)|,
      SumQuantity(mine),
      |StockCodes(mine)|,
      DayGaps(mine),
      FavoriteDayOfWeek(mine),
      FavoriteHour(mine),
      IsUK(mine),
      CancellationFrequency(rows, id))
  }

  /** The customer ids of the table, each once, ascending: the key order of
      `groupby('CustomerID')`. */
  function CustomerIds(rows: seq<Row>): (ids: seq<int>)
    ensures Ordered(ids, IntLess)
    ensures forall id :: id in ids <==> exists x :: x in rows && x.customerId == id
  {
    var all := seq(|rows|, i requires 0 <= i < |rows| => rows[i].customerId);
    assert forall x :: x in rows ==> x.customerId in all by {
      forall x | x in rows ensures x.customerId in all {
        var i :| 0 <= i < |rows| && rows[i] == x;
        assert all[i] == x.customerId;
      }
    }
    IntLessIsStrictTotal();
    SortDistinctFacts(all, IntLess);
    SortDistinct(all, IntLess)
  }

  /** Customer ids strictly ascending, so each appears once. */
  predicate AscendingIds(t: seq<CustomerFeatures>)
  {
    forall i, j :: 0 <= i < j < |t| ==> t[i].customerId < t[j].customerId
  }

  /** A customer with at least two rows, and so at least one day gap. */
  predicate HasGaps(rows: seq<Row>, id: int)
  {
    |CustomerRows(rows, id)| >= 2
  }

  /** The ids that survive the inner merge with the day-gap table, ascending. */
  function GapCustomers(rows: seq<Row>): (kept: seq<int>)
    ensures Ordered(kept, IntLess)
    ensures forall id :: id in kept <==> HasGaps(rows, id)
  {
    var ids := CustomerIds(rows);
    var p := (id: int) => HasGaps(rows, id);
    FilterOrdered(ids, p, IntLess);
    assert forall id :: HasGaps(rows, id) ==> id in ids by {
      forall id | HasGaps(rows, id) ensures id in ids {
        var mine := CustomerRows(rows, id);
        assert mine[0] in mine;
      }
    }
    Filter(ids, p)
  }

  /** The merged customer table: one row per customer id, ascending. The
      inner merge with the day-gap table drops every customer with a single
      row, since such a customer has no gap. */
  function FeatureTable(rows: seq<Row>): (t: seq<CustomerFeatures>)
    ensures |t| == |GapCustomers(rows)|
    ensures forall i :: 0 <= i < |t| ==>
      HasGaps(rows, GapCustomers(rows)[i]) && t[i] == CustomerFeaturesOf(rows, GapCustomers(rows)[i])
  {
    var kept := GapCustomers(rows);
    seq(|kept|, i requires 0 <= i < |kept| => CustomerFeaturesOf(rows, kept[i]))
  }

  /** The feature table is sorted by customer id, holds exactly the
      customers with at least two rows, and each entry is that customer's
      aggregates. */
  lemma {:induction false} FeatureTableFacts(rows: seq<Row>)
    ensures var t := FeatureTable(rows);
      && AscendingIds(t)
      && (forall f :: f in t ==> HasGaps(rows, f.customerId) && f == CustomerFeaturesOf(rows, f.customerId))
      && (forall id :: (exists f :: f in t && f.customerId == id) <==> HasGaps(rows, id))
  {
    FeatureTableAscending(rows);
    FeatureTableEntries(rows);
    FeatureTableCovers(rows);
  }

  lemma FeatureTableAscending(rows: seq<Row>)
    ensures AscendingIds(FeatureTable(rows))
  {
    var t := FeatureTable(rows);
    var kept := GapCustomers(rows);
    forall i, j | 0 <= i < j < |t| ensures t[i].customerId < t[j].customerId {
      assert IntLess(kept[i], kept[j]);
    }
  }

  lemma FeatureTableEntries(rows: seq<Row>)
    ensures forall f :: f in FeatureTable(rows) ==> HasGaps(rows, f.customerId) && f == CustomerFeaturesOf(rows, f.customerId)
  {
    var t := FeatureTable(rows);
    var kept := GapCustomers(rows);
    forall f | f in t ensures HasGaps(rows, f.customerId) && f == CustomerFeaturesOf(rows, f.customerId) {
      var i :| 0 <= i < |t| && t[i] == f;
      assert kept[i] in kept;
    }
  }

  lemma FeatureTableCovers(rows: seq<Row>)
    ensures forall id :: HasGaps(rows, id) ==> exists f :: f in FeatureTable(rows) && f.customerId == id
  {
    var t := FeatureTable(rows);
    var kept := GapCustomers(rows);
    forall id | HasGaps(rows, id) ensures exists f :: f in t && f.customerId == id {
      var i :| 0 <= i < |kept| && kept[i] == id;
      assert t[i] in t;
    }
  }
}
