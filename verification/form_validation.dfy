/** The field checks the entry form applies before a transaction is added,
    and the submit path that adds it only when every check passes. */
module FormValidation {
  import opened Wrappers
  import opened Calendar
  import opened Transactions
  import opened LedgerStore

  /** The form's values as read: the amount as a number (an empty field reads
      as 0), the trimmed category, the date if one was picked, and the
      trimmed description. */
  datatype FormData = FormData(amount: int, kind: Kind, category: string, date: Option<Date>, description: string)

  datatype Field = AmountField | CategoryField | DateField

  datatype FieldError = FieldError(field: Field, message: string)

  /** The amount is missing or not positive. */
  predicate BadAmount(f: FormData) {
    f.amount <= 0
  }

  /** The category is empty. */
  predicate BadCategory(f: FormData) {
    f.category == ""
  }

  /** No date was picked, or it is after `today` (a day number). */
  predicate BadDate(f: FormData, today: int) {
    f.date.None? || DayNumber(f.date.value) > today
  }

  /** Whether `errors` holds an error for `field`. */
  predicate Flags(errors: seq<FieldError>, field: Field) {
    exists e :: e in errors && e.field == field
  }

  /** The errors reported for one field: at most one, all for that field. */
  predicate FieldErrors(errors: seq<FieldError>, field: Field) {
    |errors| <= 1 && forall e :: e in errors ==> e.field == field
  }

  function AmountErrors(f: FormData): (errors: seq<FieldError>)
    ensures FieldErrors(errors, AmountField)
    ensures errors != [] <==> BadAmount(f)
  {
    if f.amount <= 0 then [FieldError(AmountField, "Please enter a valid amount")] else []
  }

  function CategoryErrors(f: FormData): (errors: seq<FieldError>)
    ensures FieldErrors(errors, CategoryField)
    ensures errors != [] <==> BadCategory(f)
  {
    if f.category == "" then [FieldError(CategoryField, "Please enter a category")] else []
  }

  function DateErrors(f: FormData, today: int): (errors: seq<FieldError>)
    ensures FieldErrors(errors, DateField)
    ensures errors != [] <==> BadDate(f, today)
  {
    if f.date.None? then [FieldError(DateField, "Please select a date")]
    else if DayNumber(f.date.value) > today then [FieldError(DateField, "Future dates are not allowed")]
    else []
  }

  /** The error shown for each failing field, in the order amount, category,
      date; the form is valid when there is none. */
  function ValidateForm(f: FormData, today: int): (errors: seq<FieldError>)
    ensures |errors| <= 3
    ensures errors == [] <==> f.amount > 0 && f.category != "" && f.date.Some? && DayNumber(f.date.value) <= today
  {
    AmountErrors(f) + CategoryErrors(f) + DateErrors(f, today)
  }

  /** The field a position of the error list reports on. */
  function FieldAt(f: FormData, k: int): Field {
    if k < |AmountErrors(f)| then AmountField
    else if k < |AmountErrors(f)| + |CategoryErrors(f)| then CategoryField
    else DateField
  }

  lemma ValidateFormFields(f: FormData, today: int)
    ensures forall k :: 0 <= k < |ValidateForm(f, today)| ==> ValidateForm(f, today)[k].field == FieldAt(f, k)
  {
    var a, b, c := AmountErrors(f), CategoryErrors(f), DateErrors(f, today);
    forall k | 0 <= k < |a + b + c| ensures (a + b + c)[k].field == FieldAt(f, k) {
      if k < |a| {
        assert (a + b + c)[k] in a;
      } else if k < |a| + |b| {
        assert (a + b + c)[k] in b;
      } else {
        assert (a + b + c)[k] in c;
      }
    }
  }

  /** A list of at most one error, for `field`, flags `other` exactly when
      it is non-empty and `other` is `field`. */
  lemma FieldErrorsFlag(errors: seq<FieldError>, field: Field, other: Field)
    requires FieldErrors(errors, field)
    ensures Flags(errors, other) <==> errors != [] && other == field
  {
    if errors != [] {
      assert errors[0] in errors;
    }
  }

  lemma FlagsJoin(a: seq<FieldError>, b: seq<FieldError>, c: seq<FieldError>, field: Field)
    ensures Flags(a + b + c, field) <==> Flags(a, field) || Flags(b, field) || Flags(c, field)
  {
    if Flags(a + b + c, field) {
      var e :| e in a + b + c && e.field == field;
      assert e in a || e in b || e in c;
    }
    if Flags(a, field) {
      var e :| e in a && e.field == field;
      assert e in a + b + c;
    }
    if Flags(b, field) {
      var e :| e in b && e.field == field;
      assert e in a + b + c;
    }
    if Flags(c, field) {
      var e :| e in c && e.field == field;
      assert e in a + b + c;
    }
  }

  /** Each field is reported exactly when its check fails, and no field is
      reported twice. */
  lemma ValidateFormSpec(f: FormData, today: int)
    ensures Flags(ValidateForm(f, today), AmountField) <==> BadAmount(f)
    ensures Flags(ValidateForm(f, today), CategoryField) <==> BadCategory(f)
    ensures Flags(ValidateForm(f, today), DateField) <==> BadDate(f, today)
    ensures forall i, j :: 0 <= i < j < |ValidateForm(f, today)| ==>
              ValidateForm(f, today)[i].field != ValidateForm(f, today)[j].field
  {
    var a, b, c := AmountErrors(f), CategoryErrors(f), DateErrors(f, today);
    forall field: Field ensures Flags(a + b + c, field) <==> Flags(a, field) || Flags(b, field) || Flags(c, field) {
      FlagsJoin(a, b, c, field);
    }
    forall field: Field
      ensures (Flags(a, field) <==> a != [] && field == AmountField)
      ensures (Flags(b, field) <==> b != [] && field == CategoryField)
      ensures (Flags(c, field) <==> c != [] && field == DateField)
    {
      FieldErrorsFlag(a, AmountField, field);
      FieldErrorsFlag(b, CategoryField, field);
      FieldErrorsFlag(c, DateField, field);
    }
    ValidateFormFields(f, today);
  }

  /** Submitting the form: a form with errors is rejected with them and
      changes nothing; a valid one is added, with the form's type, category,
      amount, date and description, under the caller-supplied id. */
  function Submit(l: Ledger, f: FormData, today: int, id: int): (r: Result<Ledger, seq<FieldError>>)
    ensures r.Failure? <==> ValidateForm(f, today) != []
    ensures r.Failure? ==> r.error == ValidateForm(f, today)
    ensures r.Success? ==> r.value == Add(l, Draft(f.kind, f.category, f.amount, f.date.value, f.description), id)
    ensures r.Success? ==> |r.value.transactions| == |l.transactions| + 1
    ensures r.Success? ==> r.value.transactions[|l.transactions|].amount > 0
    ensures r.Success? ==> r.value.transactions[|l.transactions|].category != ""
    ensures r.Success? ==> DayKey(r.value.transactions[|l.transactions|]) <= today
  {
    var errors := ValidateForm(f, today);
    if errors != [] then Failure(errors)
    else Success(Add(l, Draft(f.kind, f.category, f.amount, f.date.value, f.description), id))
  }

  /** Because a submitted amount is positive, submitting with a fresh id keeps
      every ledger invariant. */
  lemma SubmitPreservesConsistency(l: Ledger, f: FormData, today: int, id: int)
    requires Consistent(l)
    requires Fresh(id, l.transactions)
    ensures Submit(l, f, today, id).Success? ==> Consistent(Submit(l, f, today, id).value)
  {
    if ValidateForm(f, today) == [] {
      AddPreservesConsistency(l, Draft(f.kind, f.category, f.amount, f.date.value, f.description), id);
    }
  }
}
