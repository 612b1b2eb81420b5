/**
 The tracker's "add transaction" command: initialise the ledger file,
 collect a date (empty meaning today), an amount, a category and a
 description through the prompts, and append them as one row.
 */
module Tracker {
  import opened Wrappers
  import opened Dates
  import opened DataEntry
  import opened Ledger

  /**
   Adds one transaction from the operator's answers. The prompts are asked
   in the order date, amount, category, and each only after the one before
   it succeeded; the three counts say how many answers each prompt refused.
   When a prompt runs out of answers the file is initialised but nothing is
   appended; else exactly the accepted answers are appended as one row.
   */
  method AddTransaction(store: Csv, dateAnswers: seq<string>, amountAnswers: seq<Option<real>>,
                        categoryAnswers: seq<string>, description: string, today: Date)
    returns (added: Option<Record>, dateRejected: nat, amountRejected: nat, categoryRejected: nat)
    requires ValidDate(today)
    modifies store
    ensures dateRejected <= |dateAnswers| && amountRejected <= |amountAnswers|
    ensures categoryRejected <= |categoryAnswers|
    ensures forall n :: 0 <= n < dateRejected ==> DateInput(dateAnswers[n], true, today).Failure?
    ensures forall n :: 0 <= n < amountRejected ==> AmountInput(amountAnswers[n]).Failure?
    ensures forall n :: 0 <= n < categoryRejected ==> CategoryInput(categoryAnswers[n]).None?
    ensures dateRejected < |dateAnswers| ==> DateInput(dateAnswers[dateRejected], true, today).Success?
    ensures dateRejected < |dateAnswers| && amountRejected < |amountAnswers| ==>
              AmountInput(amountAnswers[amountRejected]).Success?
    ensures dateRejected == |dateAnswers| ==> amountRejected == 0 && categoryRejected == 0
    ensures amountRejected == |amountAnswers| && dateRejected < |dateAnswers| ==> categoryRejected == 0
    ensures added.None? <==>
              dateRejected == |dateAnswers| || amountRejected == |amountAnswers| ||
              categoryRejected == |categoryAnswers|
    ensures added.Some? ==>
              && DateInput(dateAnswers[dateRejected], true, today).Success?
              && AmountInput(amountAnswers[amountRejected]).Success?
              && CategoryInput(categoryAnswers[categoryRejected]).Some?
    ensures added.Some? ==>
              added.value == Record(DateInput(dateAnswers[dateRejected], true, today).value,
                                    amountAnswers[amountRejected].value,
                                    CategoryInput(categoryAnswers[categoryRejected]).value,
                                    description)
    ensures added.None? ==> store.State() == Initialized(old(store.State()))
    ensures added.Some? ==> store.State() == Appended(Initialized(old(store.State())), added.value)
    ensures added.Some? ==> ValidRecord(added.value)
    ensures Readable(old(store.State())) && AllValid(old(store.rows)) ==>
              Readable(store.State()) && AllValid(store.rows)
  {
    amountRejected, categoryRejected := 0, 0;
    store.InitializeCsv();
    ghost var initialized := store.State();
    var date;
    date, dateRejected := GetDate(dateAnswers, true, today);
    if date.None? { return None, dateRejected, amountRejected, categoryRejected; }
    var amount;
    amount, amountRejected := GetAmount(amountAnswers);
    if amount.None? { return None, dateRejected, amountRejected, categoryRejected; }
    var category;
    category, categoryRejected := GetCategory(categoryAnswers);
    if category.None? { return None, dateRejected, amountRejected, categoryRejected; }
    var record := Record(date.value, amount.value, category.value, DescriptionInput(description));
    assert ValidRecord(record) by {
      assert DateInput(dateAnswers[dateRejected], true, today) == Success(date.value);
    }
    store.AddEntry(record.date, record.amount, record.category, record.description);
    added := Some(record);
    if Readable(old(store.State())) && AllValid(old(store.rows)) {
      assert initialized == old(store.State());
      AllValidAppend(initialized.rows, record);
    }
  }

  lemma ScenarioDatesParse()
    ensures ParseDate("01-03-2024") == Some(Date(1, 3, 2024))
    ensures ParseDate("02-03-2024") == Some(Date(2, 3, 2024))
  {
    assert "01" == Pad2(1) && "02" == Pad2(2) && "03" == Pad2(3) && "2024" == Pad4(2024);
    assert "01-03-2024" == "01" + "-" + "03" + "-" + "2024";
    assert "02-03-2024" == "02" + "-" + "03" + "-" + "2024";
    ParseFormat(Date(1, 3, 2024));
    ParseFormat(Date(2, 3, 2024));
  }

  /** One readable, in-window row appended to a readable file comes back last. */
  lemma QueryAppendInWindow(f: FileState, r: Record, start: string, end: string)
    requires Query(f, start, end).Some?
    requires ParseDate(r.date).Some? && InTimestampRange(ParseDate(r.date).value)
    requires InWindow(r, ParseDate(start).value, ParseDate(end).value)
    ensures Query(Appended(f, r), start, end) == Some(Query(f, start, end).value + [r])
  {
    assert DateCellReadable(r.date);
    QueryAfterAppend(f, r, start, end);
  }

  /** Two rows appended to a fresh file, both inside the window, come back in order. */
  lemma QueryTwoAppends(a: Record, b: Record, start: string, end: string)
    requires ParseDate(start).Some? && ParseDate(end).Some?
    requires ParseDate(a.date).Some? && InTimestampRange(ParseDate(a.date).value)
    requires ParseDate(b.date).Some? && InTimestampRange(ParseDate(b.date).value)
    requires InWindow(a, ParseDate(start).value, ParseDate(end).value)
    requires InWindow(b, ParseDate(start).value, ParseDate(end).value)
    ensures Query(Appended(Appended(Initialized(FileState(false, [], [])), a), b), start, end) == Some([a, b])
  {
    var f0 := Initialized(FileState(false, [], []));
    assert Readable(f0) && AllDatesReadable(f0.rows);
    var q0 := Query(f0, start, end);
    assert q0 == Some([]);
    QueryAppendInWindow(f0, a, start, end);
    var f1 := Appended(f0, a);
    assert Query(f1, start, end) == Some([a]) by { assert q0.value + [a] == [a]; }
    QueryAppendInWindow(f1, b, start, end);
    assert [a] + [b] == [a, b];
  }

  /**
   Two appends to a fresh file, then a query over both days: the rows come
   back in the order they were added.
   */
  lemma TwoDayScenarioQuery()
    ensures var salary := Record("01-03-2024", 100.0, Income, "salary");
            var food := Record("02-03-2024", 40.0, Expense, "food");
            var f := Appended(Appended(Initialized(FileState(false, [], [])), salary), food);
            Query(f, "01-03-2024", "02-03-2024") == Some([salary, food])
  {
    var salary := Record("01-03-2024", 100.0, Income, "salary");
    var food := Record("02-03-2024", 40.0, Expense, "food");
    ScenarioDatesParse();
    QueryTwoAppends(salary, food, "01-03-2024", "02-03-2024");
  }

  /** The summary of that query: income 100, expense 40, net savings 60. */
  lemma TwoDayScenarioSummary()
    ensures var salary := Record("01-03-2024", 100.0, Income, "salary");
            var food := Record("02-03-2024", 40.0, Expense, "food");
            Summarize([salary, food]) == Summary([salary, food], 100.0, 40.0, 60.0)
  {
    var salary := Record("01-03-2024", 100.0, Income, "salary");
    var food := Record("02-03-2024", 40.0, Expense, "food");
    assert |Income| == 6 && |Expense| == 7;
    assert [salary, food] == [salary] + [food];
    OfCategoryConcat([salary], [food], Income);
    OfCategoryConcat([salary], [food], Expense);
    assert OfCategory([salary], Income) == [salary];
    assert OfCategory([food], Income) == [];
    assert OfCategory([salary], Expense) == [];
    assert OfCategory([food], Expense) == [food];
    assert SumAmounts([salary]) == 100.0 by { assert [salary][1..] == []; }
    assert SumAmounts([food]) == 40.0 by { assert [food][1..] == []; }
    assert OfCategory([salary, food], Income) == [salary];
    assert OfCategory([salary, food], Expense) == [food];
  }

  /** A row with a missing date followed by a dated row in the window: only the dated row comes back. */
  lemma QueryMissingThenDated(a: Record, b: Record, start: string, end: string)
    requires ParseDate(start).Some? && ParseDate(end).Some?
    requires a.date in MissingDateTexts
    requires ParseDate(b.date).Some? && InTimestampRange(ParseDate(b.date).value)
    requires InWindow(b, ParseDate(start).value, ParseDate(end).value)
    ensures Query(Appended(Appended(Initialized(FileState(false, [], [])), a), b), start, end) == Some([b])
  {
    var f0 := Initialized(FileState(false, [], []));
    assert Query(f0, start, end) == Some([]);
    MissingDateSkipped(f0, a, start, end);
    var f1 := Appended(f0, a);
    assert Query(f1, start, end) == Some([]);
    assert DateCellReadable(b.date);
    QueryAfterAppend(f1, b, start, end);
    assert [] + [b] == [b];
  }

  /**
   A stored row with an empty date is read as a missing date: the query
   skips it and still returns the salary row of that day.
   */
  lemma MissingDateScenario()
    ensures var blank := Record("", 5.0, Income, "x");
            var salary := Record("01-03-2024", 100.0, Income, "salary");
            var f := Appended(Appended(Initialized(FileState(false, [], [])), blank), salary);
            Query(f, "01-03-2024", "01-03-2024") == Some([salary])
  {
    var blank := Record("", 5.0, Income, "x");
    var salary := Record("01-03-2024", 100.0, Income, "salary");
    ScenarioDatesParse();
    QueryMissingThenDated(blank, salary, "01-03-2024", "01-03-2024");
  }

  /**
   The converter's upper-case "NAN" spelling makes a row without a date,
   which the query skips.
   */
  lemma UpperNanSkipped()
    ensures var f := FileState(true, Columns, [Record("NAN", 1.0, Income, "x")]);
            Query(f, "01-03-2024", "01-03-2024") == Some([])
  {
    var row := Record("NAN", 1.0, Income, "x");
    var f0 := FileState(true, Columns, []);
    ScenarioDatesParse();
    assert Readable(f0) && AllDatesReadable(f0.rows);
    assert Query(f0, "01-03-2024", "01-03-2024") == Some([]);
    assert "NAN" in MissingDateTexts;
    MissingDateSkipped(f0, row, "01-03-2024", "01-03-2024");
    assert Appended(f0, row) == FileState(true, Columns, [row]);
  }

  /** The lower-case "none" is neither a marker nor a date, so the query fails. */
  lemma LowerNoneFails()
    ensures var f := FileState(true, Columns, [Record("none", 1.0, Income, "x")]);
            Query(f, "01-03-2024", "01-03-2024").None?
  {
    var f := FileState(true, Columns, [Record("none", 1.0, Income, "x")]);
    if ParseDate("none").Some? {
      ParsedTextShape("none");
    }
    assert "none" !in MissingDateTexts;
    assert !DateCellReadable(f.rows[0].date);
  }
}
