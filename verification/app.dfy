/**
 The two screens of the ironing tracker, reduced to what they do to the
 table: "Home" appends the submitted intake entry, and "Update Data" sets the
 payment status of every row of the selected date. Widgets, messages and the
 file are left out; a form's submit button is the `submitted` flag.
 */
module App {
  import opened Wrappers
  import opened Schema
  import opened Records
  import opened Table

  /** The values entered on the intake form. */
  datatype IntakeForm = IntakeForm(
    name: string,
    date: string,
    time: string,
    shirts: nat,
    pants: nat,
    tshirts: nat,
    sarees: nat,
    dresses: nat,
    dryCleanShirts: nat)

  /** The row an intake form becomes. */
  function EntryOf(form: IntakeForm): Record {
    NewEntry(form.name, form.date, form.time, form.shirts, form.pants, form.tshirts,
             form.sarees, form.dresses, form.dryCleanShirts)
  }

  /** The table at the start of an interaction: the stored table, or the
      empty table when no file exists. */
  function LoadData(stored: Option<Table>): (t: Table)
    ensures stored.None? ==> t == EmptyTable()
    ensures stored.Some? ==> t == stored.value
  {
    match stored
    case None => EmptyTable()
    case Some(table) => table
  }

  /** The "Home" screen: on submit, the form's entry is appended as the last
      row; without a submit the table is left alone. */
  function SubmitIntake(t: Table, form: IntakeForm, submitted: bool): (r: Table)
    ensures !submitted ==> r == t
    ensures submitted ==> |r| == |t| + 1 && r[..|t|] == t
    ensures submitted ==> Consistent(r[|t|]) && r[|t|].paymentStatus == Pending
    ensures submitted ==> r[|t|].name == form.name && r[|t|].date == form.date && r[|t|].time == form.time
    ensures submitted ==> CountOf(r[|t|], Shirts) == form.shirts && CountOf(r[|t|], Pants) == form.pants
    ensures submitted ==> CountOf(r[|t|], TShirts) == form.tshirts && CountOf(r[|t|], Sarees) == form.sarees
    ensures submitted ==> CountOf(r[|t|], Dresses) == form.dresses
    ensures submitted ==> CountOf(r[|t|], DryCleanShirts) == form.dryCleanShirts
  {
    if submitted then Append(t, EntryOf(form)) else t
  }

  /** The "Update Data" screen: nothing happens on an empty table or when no
      row has the selected date; otherwise a submit sets the status of every
      row of that date. */
  function SubmitStatusUpdate(t: Table, selectedDate: string, status: string, submitted: bool): (r: Table)
    ensures |r| == |t|
    ensures forall i, f :: 0 <= i < |t| && f != PaymentStatus ==> Get(r[i], f) == Get(t[i], f)
    ensures forall i :: 0 <= i < |t| && t[i].date != selectedDate ==> r[i] == t[i]
    ensures submitted ==> forall i :: 0 <= i < |t| && t[i].date == selectedDate ==> r[i].paymentStatus == status
  {
    if |t| == 0 then t
    else
      var filtered := FilterByDate(t, selectedDate);
      FilterEmptyIff(t, selectedDate);
      if filtered == [] then t
      else if submitted then SetPaymentStatus(t, selectedDate, status)
      else t
  }

  /** The screen's emptiness checks change nothing: a submitted update is
      the bulk update itself, which on a table without the date is the
      identity anyway. */
  lemma {:induction false} StatusUpdateGuardsAreRedundant(t: Table, selectedDate: string, status: string, submitted: bool)
    ensures SubmitStatusUpdate(t, selectedDate, status, submitted) ==
              if submitted then SetPaymentStatus(t, selectedDate, status) else t
  {
    if submitted && FilterByDate(t, selectedDate) == [] {
      SetPaymentStatusNoMatch(t, selectedDate, status);
    }
  }

  /** One submitted form. */
  datatype Action = AddEntry(form: IntakeForm) | UpdatePayment(selectedDate: string, status: string)

  /** The table after one submitted form. */
  function Step(t: Table, a: Action): Table {
    match a
    case AddEntry(form) => SubmitIntake(t, form, true)
    case UpdatePayment(date, status) => SubmitStatusUpdate(t, date, status, true)
  }

  /** The table after a session of submitted forms, in order. */
  function Run(t: Table, actions: seq<Action>): Table
    decreases |actions|
  {
    if actions == [] then t else Run(Step(t, actions[0]), actions[1..])
  }

  /** The number of intake submissions in a session. */
  function Additions(actions: seq<Action>): nat
    decreases |actions|
  {
    if actions == [] then 0
    else (if actions[0].AddEntry? then 1 else 0) + Additions(actions[1..])
  }

  /** One submitted form keeps the derived-total invariant. */
  lemma StepPreservesConsistency(t: Table, a: Action)
    requires AllConsistent(t)
    ensures AllConsistent(Step(t, a))
  {
    match a
    case AddEntry(form) =>
      AppendPreservesConsistency(t, EntryOf(form));
    case UpdatePayment(date, status) =>
      StatusUpdateGuardsAreRedundant(t, date, status, true);
      SetPaymentStatusPreservesConsistency(t, date, status);
  }

  /** Every row keeps `Total_Clothes` equal to the sum of its counts through
      any session of intakes and status updates. */
  lemma {:induction false} RunPreservesConsistency(t: Table, actions: seq<Action>)
    requires AllConsistent(t)
    ensures AllConsistent(Run(t, actions))
    decreases |actions|
  {
    if actions != [] {
      StepPreservesConsistency(t, actions[0]);
      RunPreservesConsistency(Step(t, actions[0]), actions[1..]);
    }
  }

  /** Starting from the empty table, every row stays consistent. */
  lemma FreshTableStaysConsistent(actions: seq<Action>)
    ensures AllConsistent(Run(LoadData(None), actions))
  {
    RunPreservesConsistency(LoadData(None), actions);
  }

  /** A session grows the table by one row per intake and never drops a row;
      of the rows already there, only the payment status can change. */
  lemma {:induction false} RunFrame(t: Table, actions: seq<Action>)
    ensures |Run(t, actions)| == |t| + Additions(actions)
    ensures forall i, f :: 0 <= i < |t| && f != PaymentStatus ==> Get(Run(t, actions)[i], f) == Get(t[i], f)
    decreases |actions|
  {
    if actions != [] {
      var u := Step(t, actions[0]);
      RunFrame(u, actions[1..]);
      assert |u| >= |t|;
      forall i, f | 0 <= i < |t| && f != PaymentStatus ensures Get(u[i], f) == Get(t[i], f) {
        if actions[0].AddEntry? {
          assert u[i] == u[..|t|][i];
        }
      }
    }
  }
}
