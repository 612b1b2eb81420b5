/**
 Input validation for a new transaction: the date, amount, category and
 description prompts.

 Each prompt's check is a pure function from one raw input to a `Result`
 or `Option`. The prompts themselves repeat until an input passes; here
 they are loops over the finite sequence of inputs the operator types,
 and they return the first accepted one together with the number of
 rejected inputs before it.
 */
module DataEntry {
  import opened Wrappers
  import opened Dates

  // ---------------------------------------------------------------------
  // Date
  // ---------------------------------------------------------------------

  /** The two ways a date prompt rejects an input. */
  datatype DateError =
    | DateRequired   // empty input where no default applies
    | InvalidFormat  // not a valid dd-mm-yyyy date

  /** strptime followed by strftime: a valid date text in canonical form. */
  function NormalizeDate(s: string): (r: Option<string>)
    ensures r.Some? <==> ParseDate(s).Some?
    ensures r.Some? ==> ParseDate(r.value) == ParseDate(s)
    ensures r.Some? ==> |r.value| == 10 && r.value[2] == '-' && r.value[5] == '-'
  {
    match ParseDate(s)
    case None => None
    case Some(d) => ParseFormat(d); Some(FormatDate(d))
  }

  /** Normalising an already normalised date text changes nothing. */
  lemma NormalizeIdempotent(s: string)
    requires NormalizeDate(s).Some?
    ensures NormalizeDate(NormalizeDate(s).value) == NormalizeDate(s)
  {
    var d := ParseDate(s).value;
    ParseFormat(d);
  }

  /**
   One answer to the date prompt. An empty answer stands for `today` when
   a default is allowed and is refused otherwise; any other answer must be
   a valid date, which is returned in canonical form.
   */
  function DateInput(text: string, allowDefault: bool, today: Date): (r: Result<string, DateError>)
    requires allowDefault ==> ValidDate(today)
    ensures text == "" && !allowDefault ==> r == Failure(DateRequired)
    ensures text == "" && allowDefault ==> r == Success(FormatDate(today))
    ensures text != "" ==> (r.Success? <==> ParseDate(text).Some?)
    ensures text != "" && r.Failure? ==> r.error == InvalidFormat
    ensures text != "" && r.Success? ==> ParseDate(r.value) == ParseDate(text)
    ensures r.Success? ==> NormalizeDate(r.value) == Some(r.value)
  {
    assert allowDefault ==> ParseDate(FormatDate(today)) == Some(today) by {
      if allowDefault { ParseFormat(today); }
    }
    var dateText := if text != "" then text else if allowDefault then FormatDate(today) else "";
    if dateText != "" then
      match NormalizeDate(dateText)
      case Some(canonical) =>
        var d := ParseDate(dateText).value;
        ParseFormat(d);
        Success(canonical)
      case None => Failure(InvalidFormat)
    else
      Failure(DateRequired)
  }

  /**
   The date prompt: asks again after every rejected answer and returns the
   first accepted one, or None when the answers run out first.
   */
  method GetDate(answers: seq<string>, allowDefault: bool, today: Date)
    returns (date: Option<string>, rejected: nat)
    requires allowDefault ==> ValidDate(today)
    ensures rejected <= |answers|
    ensures forall k :: 0 <= k < rejected ==> DateInput(answers[k], allowDefault, today).Failure?
    ensures date.Some? ==> rejected < |answers| && DateInput(answers[rejected], allowDefault, today) == Success(date.value)
    ensures date.None? ==> rejected == |answers|
  {
    rejected := 0;
    while rejected < |answers|
      invariant rejected <= |answers|
      invariant forall k :: 0 <= k < rejected ==> DateInput(answers[k], allowDefault, today).Failure?
    {
      var r := DateInput(answers[rejected], allowDefault, today);
      if r.Success? {
        return Some(r.value), rejected;
      }
      rejected := rejected + 1;
    }
    date := None;
  }

  // ---------------------------------------------------------------------
  // Amount
  // ---------------------------------------------------------------------

  /** The two ways the amount prompt rejects an input. */
  datatype AmountError =
    | NotANumber   // the text is not a number
    | NotPositive  // a number, but zero or negative

  /**
   One answer to the amount prompt, already converted to a number (None
   when the text is not a number). Only a strictly positive amount passes.
   */
  function AmountInput(number: Option<real>): (r: Result<real, AmountError>)
    ensures r.Success? <==> number.Some? && number.value > 0.0
    ensures r.Success? ==> r.value == number.value
    ensures number.None? ==> r == Failure(NotANumber)
    ensures number.Some? && number.value <= 0.0 ==> r == Failure(NotPositive)
  {
    match number
    case None => Failure(NotANumber)
    case Some(amount) => if amount > 0.0 then Success(amount) else Failure(NotPositive)
  }

  /** The amount prompt: the first positive amount among the answers. */
  method GetAmount(answers: seq<Option<real>>) returns (amount: Option<real>, rejected: nat)
    ensures rejected <= |answers|
    ensures forall k :: 0 <= k < rejected ==> AmountInput(answers[k]).Failure?
    ensures amount.Some? ==> rejected < |answers| && answers[rejected] == amount && amount.value > 0.0
    ensures amount.None? ==> rejected == |answers|
  {
    rejected := 0;
    while rejected < |answers|
      invariant rejected <= |answers|
      invariant forall k :: 0 <= k < rejected ==> AmountInput(answers[k]).Failure?
    {
      var r := AmountInput(answers[rejected]);
      if r.Success? {
        return Some(r.value), rejected;
      }
      rejected := rejected + 1;
    }
    amount := None;
  }

  // ---------------------------------------------------------------------
  // Category
  // ---------------------------------------------------------------------

  const Income := "Income"
  const Expense := "Expense"

  /** The single-letter codes the category prompt accepts. */
  const Categories: map<string, string> := map["I" := Income, "E" := Expense]

  function UpperChar(c: char): char {
    if 'a' <= c <= 'z' then (c as int - 'a' as int + 'A' as int) as char else c
  }

  /** Upper-casing, letter by letter. */
  function Upper(s: string): (u: string)
    ensures |u| == |s|
    ensures forall i :: 0 <= i < |s| ==> u[i] == UpperChar(s[i])
  {
    if s == [] then [] else [UpperChar(s[0])] + Upper(s[1..])
  }

  /** One answer to the category prompt: the code, in either case, mapped to its name. */
  function CategoryInput(text: string): (r: Option<string>)
    ensures r.Some? ==> r.value == Income || r.value == Expense
  {
    var code := Upper(text);
    if code in Categories then Some(Categories[code]) else None
  }

  lemma UpperIsSingle(text: string, c: char)
    requires 'A' <= c <= 'Z'
    ensures Upper(text) == [c] <==> text == [c] || text == [(c as int - 'A' as int + 'a' as int) as char]
  {
    if Upper(text) == [c] {
      assert |text| == 1 && UpperChar(text[0]) == c;
      assert text == [text[0]];
    }
  }

  /**
   The category prompt's full behaviour: "I" or "i" gives Income, "E" or
   "e" gives Expense, and every other text is refused.
   */
  lemma CategoryInputCases(text: string)
    ensures CategoryInput(text) == Some(Income) <==> text == "I" || text == "i"
    ensures CategoryInput(text) == Some(Expense) <==> text == "E" || text == "e"
    ensures CategoryInput(text) == None <==> text !in {"I", "i", "E", "e"}
  {
    UpperIsSingle(text, 'I');
    UpperIsSingle(text, 'E');
    assert Categories.Keys == {"I", "E"};
  }

  /** The category prompt: the first answer that names a category. */
  method GetCategory(answers: seq<string>) returns (category: Option<string>, rejected: nat)
    ensures rejected <= |answers|
    ensures forall k :: 0 <= k < rejected ==> CategoryInput(answers[k]).None?
    ensures category.Some? ==> rejected < |answers| && CategoryInput(answers[rejected]) == category
    ensures category.Some? ==> category.value == Income || category.value == Expense
    ensures category.None? ==> rejected == |answers|
  {
    rejected := 0;
    while rejected < |answers|
      invariant rejected <= |answers|
      invariant forall k :: 0 <= k < rejected ==> CategoryInput(answers[k]).None?
    {
      var r := CategoryInput(answers[rejected]);
      if r.Some? {
        return r, rejected;
      }
      rejected := rejected + 1;
    }
    category := None;
  }

  // ---------------------------------------------------------------------
  // Description
  // ---------------------------------------------------------------------

  /** The description prompt accepts any answer, the empty one included, unchanged. */
  function DescriptionInput(text: string): (r: string)
    ensures r == text
  {
    text
  }
}
