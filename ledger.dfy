/**
 The ledger file: an append-only table of transactions with the fixed
 columns date, amount, category and description.

 `FileState` is what is on disk: whether the file exists, the header line
 it starts with, and its data rows in the order they were appended. The
 class `Csv` holds that state and changes it in place; `Initialized`,
 `Appended` and `Query` say what its operations do to and with it.
 */
module Ledger {
  import opened Wrappers
  import opened Dates
  import opened DataEntry

  /** One row of the file, its fields in the order of `Columns`. */
  datatype Record = Record(date: string, amount: real, category: string, description: string)

  /** The header line the file is created with. */
  const Columns: seq<string> := ["date", "amount", "category", "description"]

  datatype FileState = FileState(present: bool, header: seq<string>, rows: seq<Record>)

  /** A file that does not exist has no content. */
  predicate Consistent(f: FileState) {
    !f.present ==> f.header == [] && f.rows == []
  }

  /** A transaction as the data-entry prompts produce it. */
  predicate ValidRecord(r: Record) {
    && NormalizeDate(r.date) == Some(r.date)
    && r.amount > 0.0
    && (r.category == Income || r.category == Expense)
  }

  predicate AllValid(rows: seq<Record>) {
    forall i :: 0 <= i < |rows| ==> ValidRecord(rows[i])
  }

  lemma AllValidAppend(rows: seq<Record>, r: Record)
    requires AllValid(rows) && ValidRecord(r)
    ensures AllValid(rows + [r])
  {
    assert forall i :: 0 <= i < |rows| ==> (rows + [r])[i] == rows[i];
  }

  // ---------------------------------------------------------------------
  // Initialising and appending
  // ---------------------------------------------------------------------

  /** The file after initialisation: created with only the header when absent, else untouched. */
  function Initialized(f: FileState): (g: FileState)
    ensures g.present && Consistent(g)
    ensures f.present ==> g == f
    ensures !f.present ==> g.header == Columns && g.rows == []
  {
    if f.present then f else FileState(true, Columns, [])
  }

  /** Initialising twice is the same as initialising once. */
  lemma InitializeIdempotent(f: FileState)
    ensures Initialized(Initialized(f)) == Initialized(f)
  {
  }

  /**
   The file after one row is appended. Opening for appending creates a
   missing file, without a header.
   */
  function Appended(f: FileState, r: Record): (g: FileState)
    ensures g.present && Consistent(g) && g.header == f.header
    ensures |g.rows| == |f.rows| + 1
    ensures g.rows[..|f.rows|] == f.rows && g.rows[|f.rows|] == r
  {
    FileState(true, f.header, f.rows + [r])
  }

  /** The ledger file, changed in place by its two writing operations. */
  class Csv {
    var present: bool
    var header: seq<string>
    var rows: seq<Record>

    function State(): FileState
      reads this
    {
      FileState(present, header, rows)
    }

    /** The file as found on disk when the program starts. */
    constructor (disk: FileState)
      requires Consistent(disk)
      ensures State() == disk
    {
      present, header, rows := disk.present, disk.header, disk.rows;
    }

    method InitializeCsv()
      modifies this
      ensures State() == Initialized(old(State()))
    {
      if !present {
        present, header, rows := true, Columns, [];
      }
    }

    method AddEntry(date: string, amount: real, category: string, description: string)
      modifies this
      ensures State() == Appended(old(State()), Record(date, amount, category, description))
    {
      present := true;
      rows := rows + [Record(date, amount, category, description)];
    }
  }

  // ---------------------------------------------------------------------
  // Range queries
  // ---------------------------------------------------------------------

  /** The row's date parses and lies between `start` and `end`, both included. */
  predicate InWindow(r: Record, start: Date, end: Date) {
    match ParseDate(r.date)
    case Some(d) => Le(start, d) && Le(d, end)
    case None => false
  }

  /** The rows inside the window, in file order. */
  function Filter(rows: seq<Record>, start: Date, end: Date): seq<Record>
  {
    if rows == [] then []
    else (if InWindow(rows[0], start, end) then [rows[0]] else []) + Filter(rows[1..], start, end)
  }

  /** `a` is `b` with some elements left out and the rest in their order. */
  predicate IsSubsequence<T(==)>(a: seq<T>, b: seq<T>)
    decreases |b|
  {
    || a == []
    || (b != [] && ((a[0] == b[0] && IsSubsequence(a[1..], b[1..])) || IsSubsequence(a, b[1..])))
  }

  lemma {:induction false} FilterMembers(rows: seq<Record>, start: Date, end: Date)
    ensures forall x :: x in Filter(rows, start, end) <==> x in rows && InWindow(x, start, end)
  {
    if rows != [] {
      FilterMembers(rows[1..], start, end);
      assert rows == [rows[0]] + rows[1..];
    }
  }

  /** Each row in the window is kept as many times as it is stored; the others not at all. */
  lemma {:induction false} FilterMultiplicity(rows: seq<Record>, start: Date, end: Date)
    ensures forall x :: multiset(Filter(rows, start, end))[x] ==
                          if InWindow(x, start, end) then multiset(rows)[x] else 0
  {
    if rows != [] {
      FilterMultiplicity(rows[1..], start, end);
      assert rows == [rows[0]] + rows[1..];
      assert multiset(rows) == multiset([rows[0]]) + multiset(rows[1..]);
      var head := if InWindow(rows[0], start, end) then [rows[0]] else [];
      assert multiset(Filter(rows, start, end)) == multiset(head) + multiset(Filter(rows[1..], start, end));
    }
  }

  lemma {:induction false} FilterSubsequence(rows: seq<Record>, start: Date, end: Date)
    ensures IsSubsequence(Filter(rows, start, end), rows)
  {
    if rows != [] {
      FilterSubsequence(rows[1..], start, end);
      var rest := Filter(rows[1..], start, end);
      if InWindow(rows[0], start, end) {
        assert Filter(rows, start, end) == [rows[0]] + rest;
        assert ([rows[0]] + rest)[1..] == rest;
      } else {
        assert Filter(rows, start, end) == rest;
      }
    }
  }

  lemma {:induction false} FilterConcat(a: seq<Record>, b: seq<Record>, start: Date, end: Date)
    ensures Filter(a + b, start, end) == Filter(a, start, end) + Filter(b, start, end)
  {
    if a != [] {
      var head := if InWindow(a[0], start, end) then [a[0]] else [];
      assert (a + b)[0] == a[0] && (a + b)[1..] == a[1..] + b;
      assert Filter(a + b, start, end) == head + Filter(a[1..] + b, start, end);
      FilterConcat(a[1..], b, start, end);
      assert head + (Filter(a[1..], start, end) + Filter(b, start, end))
          == (head + Filter(a[1..], start, end)) + Filter(b, start, end);
    } else {
      assert a + b == b;
    }
  }

  /** A window whose end is before its start holds no row. */
  lemma FilterReversedEmpty(rows: seq<Record>, start: Date, end: Date)
    requires !Le(start, end)
    ensures Filter(rows, start, end) == []
  {
    FilterMembers(rows, start, end);
    if Filter(rows, start, end) != [] {
      var x := Filter(rows, start, end)[0];
      assert x in Filter(rows, start, end);
      LeTotalOrder(start, ParseDate(x.date).value, end);
    }
  }

  /**
   The texts the table reader takes for a missing date: the default
   missing-value markers of the CSV reader, and the "not a time" spellings
   of the date converter. Such a row has no date and lies in no window.
   */
  const MissingDateTexts: set<string> :=
    { "", "#N/A", "#N/A N/A", "#NA", "-1.#IND", "-1.#QNAN", "-NaN", "-nan", "1.#IND", "1.#QNAN",
      "<NA>", "N/A", "NA", "NULL", "NaN", "None", "n/a", "nan", "null", "NaT", "nat", "NAT", "NAN" }

  /**
   The first and last days the date converter can hold: it stores
   nanosecond timestamps, which reach from 21-09-1677 00:12 to 11-04-2262.
   */
  const TimestampMin := Date(22, 9, 1677)
  const TimestampMax := Date(11, 4, 2262)

  predicate InTimestampRange(d: Date) {
    Le(TimestampMin, d) && Le(d, TimestampMax)
  }

  /**
   The stored date text is read without error: a missing value, or a valid
   date the converter can hold. The converter reads `now` and `today` as the
   current time; without a clock the model counts them as unreadable.
   */
  predicate DateCellReadable(text: string) {
    || text in MissingDateTexts
    || (ParseDate(text).Some? && InTimestampRange(ParseDate(text).value))
  }

  predicate AllDatesReadable(rows: seq<Record>) {
    forall i :: 0 <= i < |rows| ==> DateCellReadable(rows[i].date)
  }

  /** An accepted date text is at least eight characters long and starts with a digit. */
  lemma ParsedTextShape(s: string)
    requires ParseDate(s).Some?
    ensures |s| >= 8 && IsDigit(s[0])
  {
    ParseDateSound(s);
  }

  /** No missing-value marker is a date. */
  lemma ParsedNotMissing(text: string)
    ensures ParseDate(text).Some? ==> text !in MissingDateTexts
  {
    if ParseDate(text).Some? {
      ParsedTextShape(text);
    }
  }

  /** A row carrying a missing-value marker as its date lies in no window. */
  lemma MissingDatesNeverParse(text: string, start: Date, end: Date)
    requires text in MissingDateTexts
    ensures ParseDate(text).None?
    ensures forall r: Record :: r.date == text ==> !InWindow(r, start, end)
  {
    ParsedNotMissing(text);
  }

  /**
   The file can be read as a table whose first column is the date: it
   exists, and its header has at least the four columns, `date` first.
   */
  predicate Readable(f: FileState) {
    f.present && |f.header| >= |Columns| && f.header[0] == "date"
  }

  /**
   The rows dated from `start` to `end`, both included, in file order and
   with their repetitions. Reading fails (None) when the file is missing or
   not a table with the date first, when a bound is not a valid dd-mm-yyyy
   date, or when a stored date is neither missing nor a date the converter
   can hold. Rows whose date is missing are skipped.
   */
  function Query(f: FileState, start: string, end: string): (r: Option<seq<Record>>)
    ensures r.Some? <==> Readable(f) && ParseDate(start).Some? && ParseDate(end).Some? && AllDatesReadable(f.rows)
    ensures r.Some? ==> forall x :: x in r.value <==>
                          x in f.rows && InWindow(x, ParseDate(start).value, ParseDate(end).value)
    ensures r.Some? ==> forall x :: multiset(r.value)[x] ==
                          if InWindow(x, ParseDate(start).value, ParseDate(end).value) then multiset(f.rows)[x] else 0
    ensures r.Some? ==> IsSubsequence(r.value, f.rows)
    ensures r.Some? && f.rows == [] ==> r.value == []
    ensures r.Some? && !Le(ParseDate(start).value, ParseDate(end).value) ==> r.value == []
  {
    if Readable(f) && ParseDate(start).Some? && ParseDate(end).Some? && AllDatesReadable(f.rows) then
      var s, e := ParseDate(start).value, ParseDate(end).value;
      FilterMembers(f.rows, s, e);
      FilterMultiplicity(f.rows, s, e);
      FilterSubsequence(f.rows, s, e);
      if !Le(s, e) then FilterReversedEmpty(f.rows, s, e); Some(Filter(f.rows, s, e))
      else Some(Filter(f.rows, s, e))
    else
      None
  }

  lemma AllDatesReadableAppend(rows: seq<Record>, r: Record)
    ensures AllDatesReadable(rows + [r]) <==> AllDatesReadable(rows) && DateCellReadable(r.date)
  {
    if AllDatesReadable(rows + [r]) {
      assert (rows + [r])[|rows|] == r;
      assert forall i :: 0 <= i < |rows| ==> (rows + [r])[i] == rows[i];
    }
  }

  /**
   How an append changes every later query: the new row is added at the
   end when it falls into the window; a row whose date is not readable
   makes every later query fail.
   */
  lemma QueryAfterAppend(f: FileState, r: Record, start: string, end: string)
    requires Query(f, start, end).Some?
    ensures !DateCellReadable(r.date) ==> Query(Appended(f, r), start, end).None?
    ensures DateCellReadable(r.date) ==>
              var s, e := ParseDate(start).value, ParseDate(end).value;
              Query(Appended(f, r), start, end) ==
              Some(Query(f, start, end).value + (if InWindow(r, s, e) then [r] else []))
  {
    AllDatesReadableAppend(f.rows, r);
    var s, e := ParseDate(start).value, ParseDate(end).value;
    FilterConcat(f.rows, [r], s, e);
    assert Filter([r], s, e) == if InWindow(r, s, e) then [r] else [];
  }

  /** A row whose date reads as missing is skipped: every query returns what it did before. */
  lemma MissingDateSkipped(f: FileState, r: Record, start: string, end: string)
    requires Query(f, start, end).Some? && r.date in MissingDateTexts
    ensures Query(Appended(f, r), start, end) == Query(f, start, end)
  {
    var s, e := ParseDate(start).value, ParseDate(end).value;
    MissingDatesNeverParse(r.date, s, e);
    assert DateCellReadable(r.date) && !InWindow(r, s, e);
    QueryAfterAppend(f, r, start, end);
    assert Query(f, start, end).value + [] == Query(f, start, end).value;
  }

  /** A row dated outside the converter's range makes every later query fail. */
  lemma OutOfRangeDateBreaksQueries(f: FileState, r: Record, start: string, end: string)
    requires Query(f, start, end).Some?
    requires ParseDate(r.date).Some? && !InTimestampRange(ParseDate(r.date).value)
    ensures Query(Appended(f, r), start, end).None?
  {
    QueryAfterAppend(f, r, start, end);
    ParsedNotMissing(r.date);
  }

  /** A row just appended is the last row of a query for its own day. */
  lemma AppendThenQueryItsDay(f: FileState, r: Record)
    requires Readable(f) && AllDatesReadable(f.rows)
    requires ParseDate(r.date).Some? && InTimestampRange(ParseDate(r.date).value)
    ensures var q := Query(Appended(f, r), r.date, r.date);
            q.Some? && |q.value| > 0 && q.value[|q.value| - 1] == r
  {
    QueryAfterAppend(f, r, r.date, r.date);
    LeTotalOrder(ParseDate(r.date).value, ParseDate(r.date).value, ParseDate(r.date).value);
  }

  /**
   Rows written through the data-entry prompts, dated within the
   converter's range, never make a query fail.
   */
  lemma ValidRowsAreReadable(f: FileState, start: string, end: string)
    requires Readable(f) && AllValid(f.rows)
    requires forall i :: 0 <= i < |f.rows| ==> InTimestampRange(ParseDate(f.rows[i].date).value)
    ensures Query(f, start, end).Some? <==> ParseDate(start).Some? && ParseDate(end).Some?
  {
    assert AllDatesReadable(f.rows) by {
      forall i | 0 <= i < |f.rows| ensures DateCellReadable(f.rows[i].date) {
        assert ValidRecord(f.rows[i]);
      }
    }
  }

  // ---------------------------------------------------------------------
  // Summary of a query result
  // ---------------------------------------------------------------------

  /** The rows of one category, in order. */
  function OfCategory(rs: seq<Record>, category: string): seq<Record>
  {
    if rs == [] then []
    else (if rs[0].category == category then [rs[0]] else []) + OfCategory(rs[1..], category)
  }

  function SumAmounts(rs: seq<Record>): real
  {
    if rs == [] then 0.0 else rs[0].amount + SumAmounts(rs[1..])
  }

  /** The sum of the amounts of one category's rows. */
  function Total(rs: seq<Record>, category: string): real
  {
    SumAmounts(OfCategory(rs, category))
  }

  /** What viewing a query result shows. */
  datatype Report =
    | NoTransactionsFound
    | Summary(rows: seq<Record>, totalIncome: real, totalExpense: real, netSavings: real)

  /** The summary of a query result, or the notice that it is empty. */
  function Summarize(rs: seq<Record>): (r: Report)
    ensures r.NoTransactionsFound? <==> rs == []
    ensures r.Summary? ==> r.rows == rs && r.netSavings == r.totalIncome - r.totalExpense
    ensures r.Summary? ==> r.totalIncome == Total(rs, Income) && r.totalExpense == Total(rs, Expense)
  {
    if rs == [] then NoTransactionsFound
    else
      var income, expense := Total(rs, Income), Total(rs, Expense);
      Summary(rs, income, expense, income - expense)
  }

  lemma TotalEmpty(category: string)
    ensures Total([], category) == 0.0
  {
  }

  lemma {:induction false} SumAmountsConcat(a: seq<Record>, b: seq<Record>)
    ensures SumAmounts(a + b) == SumAmounts(a) + SumAmounts(b)
  {
    if a == [] {
      assert a + b == b;
    } else {
      assert (a + b)[1..] == a[1..] + b;
      SumAmountsConcat(a[1..], b);
    }
  }

  lemma {:induction false} OfCategoryConcat(a: seq<Record>, b: seq<Record>, category: string)
    ensures OfCategory(a + b, category) == OfCategory(a, category) + OfCategory(b, category)
  {
    if a == [] {
      assert a + b == b;
    } else {
      var head := if a[0].category == category then [a[0]] else [];
      assert (a + b)[0] == a[0] && (a + b)[1..] == a[1..] + b;
      assert OfCategory(a + b, category) == head + OfCategory(a[1..] + b, category);
      OfCategoryConcat(a[1..], b, category);
      assert head + (OfCategory(a[1..], category) + OfCategory(b, category))
          == (head + OfCategory(a[1..], category)) + OfCategory(b, category);
    }
  }

  /** Totals add up over a concatenation of results. */
  lemma TotalConcat(a: seq<Record>, b: seq<Record>, category: string)
    ensures Total(a + b, category) == Total(a, category) + Total(b, category)
  {
    OfCategoryConcat(a, b, category);
    SumAmountsConcat(OfCategory(a, category), OfCategory(b, category));
  }

  /** The summary of two non-empty results together adds their totals and their savings. */
  lemma SummarizeAdditive(a: seq<Record>, b: seq<Record>)
    requires a != [] && b != []
    ensures var sa, sb, sab := Summarize(a), Summarize(b), Summarize(a + b);
            && sab.totalIncome == sa.totalIncome + sb.totalIncome
            && sab.totalExpense == sa.totalExpense + sb.totalExpense
            && sab.netSavings == sa.netSavings + sb.netSavings
  {
    TotalConcat(a, b, Income);
    TotalConcat(a, b, Expense);
  }

  /** When every row is Income or Expense, the two totals together are the sum of all amounts. */
  lemma {:induction false} IncomeAndExpenseCoverAll(rs: seq<Record>)
    requires forall i :: 0 <= i < |rs| ==> rs[i].category == Income || rs[i].category == Expense
    ensures Total(rs, Income) + Total(rs, Expense) == SumAmounts(rs)
  {
    if rs != [] {
      IncomeAndExpenseCoverAll(rs[1..]);
      assert rs == [rs[0]] + rs[1..];
      OfCategoryConcat([rs[0]], rs[1..], Income);
      OfCategoryConcat([rs[0]], rs[1..], Expense);
      SumAmountsConcat(OfCategory([rs[0]], Income), OfCategory(rs[1..], Income));
      SumAmountsConcat(OfCategory([rs[0]], Expense), OfCategory(rs[1..], Expense));
    }
  }

  /** With positive amounts a total is never negative, and positive once one such row is present. */
  lemma {:induction false} TotalPositive(rs: seq<Record>, category: string)
    requires forall i :: 0 <= i < |rs| ==> rs[i].amount > 0.0
    ensures Total(rs, category) >= 0.0
    ensures (exists i :: 0 <= i < |rs| && rs[i].category == category) ==> Total(rs, category) > 0.0
  {
    if rs != [] {
      TotalPositive(rs[1..], category);
      assert rs == [rs[0]] + rs[1..];
      OfCategoryConcat([rs[0]], rs[1..], category);
      SumAmountsConcat(OfCategory([rs[0]], category), OfCategory(rs[1..], category));
      if exists i :: 0 <= i < |rs| && rs[i].category == category {
        var i :| 0 <= i < |rs| && rs[i].category == category;
        if i > 0 {
          assert rs[1..][i - 1].category == category;
        }
      }
    }
  }
}
