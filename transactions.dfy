/** The transaction table: one row per invoice line, before and after
    cleaning, with the per-row values the pipeline derives from the invoice
    timestamp, and the two string operations cleaning relies on
    (`str.isdigit` and `str.upper`) over the ISO-8859-1 characters the input
    file is decoded from. */
module Transactions {
  import opened Seqs

  /** A row as read from the CSV file. `CustomerID` and `Description` may be
      missing; `InvoiceDate` is a timestamp in seconds since 1970-01-01. */
  datatype RawRow = RawRow(
    invoiceNo: string,
    stockCode: string,
    description: Option<string>,
    quantity: int,
    invoiceDate: int,
    unitPrice: real,
    customerId: Option<int>,
    country: string)

  datatype Status = Cancelled | Completed

  /** A row once cleaning has removed the missing values and added the
      `Transaction_Status` column. */
  datatype Row = Row(
    invoiceNo: string,
    stockCode: string,
    description: string,
    quantity: int,
    invoiceDate: int,
    unitPrice: real,
    customerId: int,
    country: string,
    status: Status)

  const SecondsPerDay: int := 86400
  const SecondsPerHour: int := 3600

  /** `InvoiceDate.dt.date` as a day number (days since 1970-01-01); pandas
      floors, and so does Dafny's `/` for a positive divisor. */
  function InvoiceDay(r: Row): (d: int)
    ensures d * 86400 <= r.invoiceDate < d * 86400 + 86400
  {
    r.invoiceDate / SecondsPerDay
  }

  /** `InvoiceDate.dt.dayofweek`: Monday is 0. 1970-01-01 (day 0) was a
      Thursday, so the Mondays are the days 4 (1970-01-05), 11, 18, ... and
      the days before them going back in steps of seven. */
  function DayOfWeek(r: Row): (d: int)
    ensures 0 <= d < 7
    ensures (InvoiceDay(r) - d) % 7 == 4
    ensures InvoiceDay(r) % 7 == 0 ==> d == 3
  {
    (InvoiceDay(r) + 3) % 7
  }

  /** The weekday advances by one each day, Sunday (6) wrapping to Monday. */
  lemma DayOfWeekNextDay(r: Row, s: Row)
    requires InvoiceDay(s) == InvoiceDay(r) + 1
    ensures DayOfWeek(s) == (DayOfWeek(r) + 1) % 7
  {
  }

  /** `InvoiceDate.dt.hour`. */
  function Hour(r: Row): (h: int)
    ensures 0 <= h < 24
    ensures InvoiceDay(r) * 86400 + h * 3600 <= r.invoiceDate
    ensures r.invoiceDate < InvoiceDay(r) * 86400 + h * 3600 + 3600
  {
    (r.invoiceDate % SecondsPerDay) / SecondsPerHour
  }

  /** Python's `str.isdigit` on an ISO-8859-1 character: the ASCII digits
      and the superscripts one, two and three. */
  predicate IsDigit(c: char)
  {
    ('0' <= c <= '9') || c == '\U{B9}' || c == '\U{B2}' || c == '\U{B3}'
  }

  /** `sum(c.isdigit() for c in s)`. */
  function DigitCount(s: string): (n: nat)
    ensures n <= |s|
    ensures n == 0 <==> forall i :: 0 <= i < |s| ==> !IsDigit(s[i])
  {
    if s == [] then 0
    else (if IsDigit(s[0]) then 1 else 0) + DigitCount(s[1..])
  }

  /** The ISO-8859-1 lower-case letters that have an upper-case form: `a`
      to `z`, the micro sign, sharp s, and U+E0 to U+FF except the division
      sign. (The ordinal indicators U+AA and U+BA are lower case but have no
      upper-case form.) */
  predicate IsLowerLetter(c: char)
  {
    ('a' <= c <= 'z') || c == '\U{B5}' || ('\U{DF}' <= c <= '\U{FF}' && c != '\U{F7}')
  }

  /** Python's `str.upper` on one ISO-8859-1 character. Sharp s becomes two
      letters, and y-diaeresis and micro sign leave the Latin-1 range. Every
      character other than a lower-case letter, upper-case letters (U+C0 to
      U+DE among them) included, is left as it is. */
  function UpperChar(c: char): (u: string)
    ensures 1 <= |u| <= 2
    ensures forall i :: 0 <= i < |u| ==> !IsLowerLetter(u[i])
    ensures u == [c] <==> !IsLowerLetter(c)
    ensures ('A' <= c <= 'Z') || ('\U{C0}' <= c <= '\U{DE}' && c != '\U{D7}') || IsDigit(c) || c == ' ' ==> u == [c]
  {
    if 'a' <= c <= 'z' then [(c as int - 32) as char]
    else if c == '\U{B5}' then ['\U{39C}']
    else if c == '\U{DF}' then "SS"
    else if '\U{E0}' <= c <= '\U{FE}' && c != '\U{F7}' then [(c as int - 32) as char]
    else if c == '\U{FF}' then ['\U{178}']
    else [c]
  }

  /** `str.upper`, character by character. */
  function Upper(s: string): (u: string)
    ensures |u| >= |s|
  {
    if s == [] then [] else UpperChar(s[0]) + Upper(s[1..])
  }

  /** A string that upper-casing leaves as it is. */
  predicate IsUpper(s: string)
  {
    Upper(s) == s
  }

  lemma {:induction false} UpperAppend(a: string, b: string)
    ensures Upper(a + b) == Upper(a) + Upper(b)
  {
    if a != [] {
      assert (a + b)[1..] == a[1..] + b;
      UpperAppend(a[1..], b);
    } else {
      assert a + b == b;
    }
  }

  lemma {:induction false} UpperOfFixedChars(t: string)
    requires forall i :: 0 <= i < |t| ==> UpperChar(t[i]) == [t[i]]
    ensures Upper(t) == t
  {
    if t != [] {
      UpperOfFixedChars(t[1..]);
      assert t == [t[0]] + t[1..];
    }
  }

  /** A string is upper case exactly when it holds no lower-case letter
      that has an upper-case form. */
  lemma {:induction false} IsUpperIffNoLowerLetter(s: string)
    ensures IsUpper(s) <==> forall i :: 0 <= i < |s| ==> !IsLowerLetter(s[i])
  {
    if forall i :: 0 <= i < |s| ==> !IsLowerLetter(s[i]) {
      UpperOfFixedChars(s);
    } else {
      var i :| 0 <= i < |s| && IsLowerLetter(s[i]);
      var head := UpperChar(s[0]);
      assert Upper(s) == head + Upper(s[1..]);
      if head != [s[0]] {
        assert Upper(s)[0] == head[0] && IsLowerLetter(s[0]);
      } else {
        assert s[1..][i - 1] == s[i];
        IsUpperIffNoLowerLetter(s[1..]);
        assert Upper(s)[1..] == Upper(s[1..]);
      }
    }
  }

  /** Upper-casing is idempotent, so every description it produces is
      already upper case. */
  lemma {:induction false} UpperIdempotent(s: string)
    ensures IsUpper(Upper(s))
  {
    if s != [] {
      var head := UpperChar(s[0]);
      UpperAppend(head, Upper(s[1..]));
      UpperOfFixedChars(head);
      UpperIdempotent(s[1..]);
    }
  }
}
