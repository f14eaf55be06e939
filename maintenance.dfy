/** The maintenance-issue form of MaintenanceInfo: field updates, the
    required-field validator, the submit decision, reset and the edit
    prefill. The backend calls are abstract outcomes; the dates the source
    reads from `new Date()` are given as strings. */
module Maintenance {
  import opened Wrappers
  import opened JsValues

  /** The eight inputs of the issue form, named after their `name` attributes. */
  datatype IssueField = RoomNo | Issue | Status | Remarks | Priority | RequestedBy | AssignedTo | CreatedDate

  /** `newIssue`. The values are JavaScript values rather than strings
      because `handleEditClick` copies whatever the backend record holds. */
  datatype IssueForm = IssueForm(
    roomNo: JsValue, issue: JsValue, status: JsValue, remarks: JsValue,
    priority: JsValue, requestedBy: JsValue, assignedTo: JsValue, createdDate: JsValue)
  {
    /** `newIssue[f]`. */
    function Get(f: IssueField): JsValue {
      match f
      case RoomNo => roomNo
      case Issue => issue
      case Status => status
      case Remarks => remarks
      case Priority => priority
      case RequestedBy => requestedBy
      case AssignedTo => assignedTo
      case CreatedDate => createdDate
    }
  }

  /** An issue as the backend lists it: its `_id` and the same eight
      properties, a missing one being `Undefined`. */
  datatype MaintenanceIssue = MaintenanceIssue(id: string, fields: IssueForm)

  /** A key of `formErrors`: one per validated field, and `general` for a
      failed save. */
  datatype IssueError = FieldError(field: IssueField) | General {
    function Message(): string {
      match this
      case General => "There was an error saving the maintenance issue. Please try again."
      case FieldError(f) =>
        match f
        case RoomNo => "Room number is required"
        case Issue => "Issue description is required"
        case Status => "Status is required"
        case Priority => "Priority is required"
        case RequestedBy => "Requester name is required"
        case CreatedDate => "Request date is required"
        case _ => ""
    }
  }

  /** The screen state the form handlers read and write. */
  datatype Screen = Screen(
    newIssue: IssueForm, formErrors: set<IssueError>, isEditing: bool,
    selectedIssue: Option<MaintenanceIssue>, showFormModal: bool, isSubmitting: bool)

  // ---------------------------------------------------------------------
  // handleIssueChange

  /** `setNewIssue(prev => ({ ...prev, [name]: value }))` for one of the
      form's inputs. */
  function HandleIssueChange(form: IssueForm, name: IssueField, value: string): (r: IssueForm)
    ensures forall f :: r.Get(f) == if f == name then Str(value) else form.Get(f)
  {
    match name
    case RoomNo => form.(roomNo := Str(value))
    case Issue => form.(issue := Str(value))
    case Status => form.(status := Str(value))
    case Remarks => form.(remarks := Str(value))
    case Priority => form.(priority := Str(value))
    case RequestedBy => form.(requestedBy := Str(value))
    case AssignedTo => form.(assignedTo := Str(value))
    case CreatedDate => form.(createdDate := Str(value))
  }

  /** Typing a value and then its previous text back restores the form. */
  lemma ChangeBackRestores(form: IssueForm, name: IssueField, value: string)
    requires form.Get(name).Str?
    ensures HandleIssueChange(HandleIssueChange(form, name, value), name, form.Get(name).s) == form
  {
    var r := HandleIssueChange(HandleIssueChange(form, name, value), name, form.Get(name).s);
    assert forall f :: r.Get(f) == form.Get(f);
    assert r.roomNo == form.roomNo && r.issue == form.issue && r.status == form.status;
    assert r.remarks == form.remarks && r.priority == form.priority && r.requestedBy == form.requestedBy;
    assert r.assignedTo == form.assignedTo && r.createdDate == form.createdDate;
  }

  // ---------------------------------------------------------------------
  // validateForm

  /** What an optional-chained `trim` throws on a number or boolean. */
  const TrimTypeError: string := "TypeError: trim is not a function"

  /** The value has no `trim` method, so `v?.trim()` throws. */
  predicate HasNoTrim(v: JsValue) {
    v.Bool? || v.Num? || v.NaN?
  }

  /** `!v?.trim()` holds: the value is nullish or a blank string. */
  predicate TrimsToNothing(v: JsValue) {
    v.Undefined? || v.Null? || (v.Str? && IsBlank(v.s))
  }

  /** `!v?.trim()` evaluated: a thrown `TypeError`, or its truth value. */
  function TrimmedFalsy(v: JsValue): (r: Result<bool, string>)
    ensures r.Failure? <==> HasNoTrim(v)
    ensures r.Success? ==> (r.value <==> TrimsToNothing(v))
  {
    match v
    case Undefined => Success(true)
    case Null => Success(true)
    case Str(s) => TrimEmptyIffBlank(s); Success(Trim(s) == "")
    case _ => Failure(TrimTypeError)
  }

  /** The five fields checked with `!x?.trim()`; `createdDate` is checked
      for truthiness only, and `remarks` and `assignedTo` not at all. */
  predicate TrimChecked(f: IssueField) {
    f == RoomNo || f == Issue || f == Status || f == Priority || f == RequestedBy
  }

  /** Some trimmed field holds a number or boolean, so validation throws. */
  predicate ValidationThrows(form: IssueForm) {
    HasNoTrim(form.roomNo) || HasNoTrim(form.issue) || HasNoTrim(form.status)
    || HasNoTrim(form.priority) || HasNoTrim(form.requestedBy)
  }

  /** Field `f` is reported as missing. */
  predicate Missing(form: IssueForm, f: IssueField) {
    if f == CreatedDate then !Truthy(form.createdDate)
    else TrimChecked(f) && TrimsToNothing(form.Get(f))
  }

  /** The form passes: nothing throws and no field is missing. */
  predicate Complete(form: IssueForm) {
    !ValidationThrows(form) && forall f :: !Missing(form, f)
  }

  /** `validateForm`: the error keys it records and what it returns. A
      thrown `TypeError` leaves `formErrors` unset, so no keys are recorded. */
  method ValidateIssueForm(form: IssueForm) returns (errors: set<IssueError>, valid: Result<bool, string>)
    ensures valid.Failure? <==> ValidationThrows(form)
    ensures valid.Failure? ==> errors == {} && valid.error == TrimTypeError
    ensures valid.Success? ==> forall e :: e in errors <==> e.FieldError? && Missing(form, e.field)
    ensures valid.Success? ==> (valid.value <==> Complete(form))
  {
    var step := CheckTrimmed(form, RoomNo, {});
    if step.Failure? { return {}, Failure(step.error); }
    step := CheckTrimmed(form, Issue, step.value);
    if step.Failure? { return {}, Failure(step.error); }
    step := CheckTrimmed(form, Status, step.value);
    if step.Failure? { return {}, Failure(step.error); }
    step := CheckTrimmed(form, Priority, step.value);
    if step.Failure? { return {}, Failure(step.error); }
    step := CheckTrimmed(form, RequestedBy, step.value);
    if step.Failure? { return {}, Failure(step.error); }
    errors := step.value;
    if !Truthy(form.createdDate) {
      errors := errors + {FieldError(CreatedDate)};
    }
    valid := Success(errors == {});
    if !valid.value {
      var e :| e in errors;
      assert Missing(form, e.field);
    }
  }

  /** One `if (!newIssue[f]?.trim()) errors[f] = ...` step: it throws on a
      number or boolean, and otherwise adds `f` exactly when it is missing. */
  method CheckTrimmed(form: IssueForm, f: IssueField, errors: set<IssueError>) returns (r: Result<set<IssueError>, string>)
    requires TrimChecked(f)
    ensures r.Failure? <==> HasNoTrim(form.Get(f))
    ensures r.Failure? ==> r.error == TrimTypeError
    ensures r.Success? ==> forall e :: e in r.value <==> e in errors || (e == FieldError(f) && Missing(form, f))
  {
    var c := TrimmedFalsy(form.Get(f));
    if c.Failure? {
      return Failure(c.error);
    }
    r := Success(if c.value then errors + {FieldError(f)} else errors);
  }

  /** Remarks and the assignee are never validated: any value there leaves
      the outcome as it was. */
  lemma RemarksAndAssigneeUnchecked(form: IssueForm, remarks: JsValue, assignedTo: JsValue)
    ensures Complete(form) <==> Complete(form.(remarks := remarks, assignedTo := assignedTo))
  {
    var g := form.(remarks := remarks, assignedTo := assignedTo);
    assert forall f :: Missing(form, f) == Missing(g, f);
  }

  /** A form that passes has every checked field filled: the five trimmed
      ones with non-blank text and the date with a non-empty value. */
  lemma {:induction false} CompleteMeansFilled(form: IssueForm)
    requires Complete(form)
    ensures forall f :: TrimChecked(f) ==> form.Get(f).Str? && !IsBlank(form.Get(f).s)
    ensures Truthy(form.createdDate)
  {
    forall f | TrimChecked(f)
      ensures form.Get(f).Str? && !IsBlank(form.Get(f).s)
    {
      assert !Missing(form, f);
    }
    assert !Missing(form, CreatedDate);
  }

  // ---------------------------------------------------------------------
  // resetForm and handleEditClick

  /** The value `resetForm` gives each field, `today` being the ISO date. */
  function DefaultValue(f: IssueField, today: string): JsValue {
    match f
    case Status => Str("Pending")
    case Priority => Str("Medium")
    case CreatedDate => Str(today)
    case _ => Str("")
  }

  function DefaultForm(today: string): (form: IssueForm)
    ensures forall f :: form.Get(f) == DefaultValue(f, today)
  {
    IssueForm(Str(""), Str(""), Str("Pending"), Str(""), Str("Medium"), Str(""), Str(""), Str(today))
  }

  /** `resetForm`: the blank form, no errors, not editing, nothing selected;
      the modal and the submitting flag are left as they are. */
  function ResetForm(st: Screen, today: string): (r: Screen)
    ensures forall f :: r.newIssue.Get(f) == DefaultValue(f, today)
    ensures r.formErrors == {} && !r.isEditing && r.selectedIssue.None?
    ensures r.showFormModal == st.showFormModal && r.isSubmitting == st.isSubmitting
  {
    st.(newIssue := DefaultForm(today), formErrors := {}, isEditing := false, selectedIssue := None)
  }

  /** A reset form fails validation on exactly the room number, the
      description and the requester (and on the date only if `today` were
      empty): status and priority defaults count as filled. */
  lemma {:induction false} ResetFormMissing(st: Screen, today: string, f: IssueField)
    ensures var form := ResetForm(st, today).newIssue;
      !ValidationThrows(form)
      && (Missing(form, f) <==> f == RoomNo || f == Issue || f == RequestedBy || (f == CreatedDate && today == ""))
  {
    var form := ResetForm(st, today).newIssue;
    assert form == DefaultForm(today);
    assert IsBlank("");
    assert !IsBlank("Pending") by { assert !IsWhitespace("Pending"[0]); }
    assert !IsBlank("Medium") by { assert !IsWhitespace("Medium"[0]); }
  }

  /** `x || d` on a backend value. */
  function OrDefault(v: JsValue, d: JsValue): JsValue {
    if Truthy(v) then v else d
  }

  /** `handleEditClick(issue)`. `formatted` is the ISO date the source
      derives from `issue.createdDate`, used only when that is truthy; it is
      `None` when that value is no valid date, so that `toISOString` throws
      a `RangeError` after the issue was selected and before anything else
      is set. `today` is used when `createdDate` is falsy. */
  function HandleEditClick(st: Screen, issue: MaintenanceIssue, today: string, formatted: Option<string>): (r: Screen)
    ensures Truthy(issue.fields.createdDate) && formatted.None? ==> r == st.(selectedIssue := Some(issue))
    ensures !Truthy(issue.fields.createdDate) || formatted.Some? ==>
      && (forall f :: f != CreatedDate ==>
            r.newIssue.Get(f) == if Truthy(issue.fields.Get(f)) then issue.fields.Get(f) else DefaultValue(f, today))
      && r.newIssue.createdDate == Str(if Truthy(issue.fields.createdDate) then formatted.value else today)
      && r.isEditing && r.showFormModal
    ensures r.selectedIssue == Some(issue)
    ensures r.formErrors == st.formErrors && r.isSubmitting == st.isSubmitting
  {
    var i := issue.fields;
    if Truthy(i.createdDate) && formatted.None? then st.(selectedIssue := Some(issue))
    else
      var date := if Truthy(i.createdDate) then formatted.value else today;
      var form := IssueForm(
        OrDefault(i.roomNo, Str("")), OrDefault(i.issue, Str("")), OrDefault(i.status, Str("Pending")),
        OrDefault(i.remarks, Str("")), OrDefault(i.priority, Str("Medium")), OrDefault(i.requestedBy, Str("")),
        OrDefault(i.assignedTo, Str("")), Str(date));
      st.(selectedIssue := Some(issue), newIssue := form, isEditing := true, showFormModal := true)
  }

  /** An issue whose text fields are all non-empty strings is loaded into
      the form unchanged, apart from the date, which is reformatted. */
  lemma {:induction false} EditLoadsIssue(st: Screen, issue: MaintenanceIssue, today: string, formatted: string)
    requires forall f :: f != CreatedDate ==> issue.fields.Get(f).Str? && issue.fields.Get(f).s != ""
    ensures HandleEditClick(st, issue, today, Some(formatted)).newIssue
      == issue.fields.(createdDate := Str(if Truthy(issue.fields.createdDate) then formatted else today))
  {
    var r := HandleEditClick(st, issue, today, Some(formatted)).newIssue;
    var i := issue.fields;
    assert r.roomNo == i.roomNo by { assert r.Get(RoomNo) == i.Get(RoomNo); }
    assert r.issue == i.issue by { assert r.Get(Issue) == i.Get(Issue); }
    assert r.status == i.status by { assert r.Get(Status) == i.Get(Status); }
    assert r.remarks == i.remarks by { assert r.Get(Remarks) == i.Get(Remarks); }
    assert r.priority == i.priority by { assert r.Get(Priority) == i.Get(Priority); }
    assert r.requestedBy == i.requestedBy by { assert r.Get(RequestedBy) == i.Get(RequestedBy); }
    assert r.assignedTo == i.assignedTo by { assert r.Get(AssignedTo) == i.Get(AssignedTo); }
  }

  /** Cancelling an edit (`resetForm`) forgets the edited issue entirely:
      the result does not depend on which issue was opened. When the date
      could not be formatted the modal was never opened. */
  lemma ResetAfterEditForgetsIssue(st: Screen, issue: MaintenanceIssue, today: string, formatted: Option<string>)
    ensures ResetForm(HandleEditClick(st, issue, today, formatted), today)
      == ResetForm(st, today).(showFormModal := st.showFormModal
           || !Truthy(issue.fields.createdDate) || formatted.Some?)
  {
  }

  // ---------------------------------------------------------------------
  // submitForm

  /** The request `submitForm` sends. */
  datatype Request = UpdateIssue(id: string, body: IssueForm) | CreateIssue(body: IssueForm)

  /** What the awaited create or update call did: it resolved to its
      success flag, or it threw. */
  datatype SaveOutcome = Saved(success: bool) | SaveThrew

  /** What `submitForm` did: nothing (invalid form), rejected because
      validation threw, or sent a request. */
  datatype Submission = NotSent | ValidatorThrew(message: string) | Sent(request: Request)

  /** `submitForm`. `outcome` is what the create or update call produces
      if one is made; `today` is the date `resetForm` would use. */
  method SubmitForm(st: Screen, today: string, outcome: SaveOutcome) returns (r: Screen, submission: Submission)
    ensures ValidationThrows(st.newIssue) ==> submission == ValidatorThrew(TrimTypeError) && r == st
    ensures !ValidationThrows(st.newIssue) && !Complete(st.newIssue) ==>
      && submission == NotSent
      && r == st.(formErrors := r.formErrors)
      && (forall e :: e in r.formErrors <==> e.FieldError? && Missing(st.newIssue, e.field))
    ensures Complete(st.newIssue) ==>
      && submission == Sent(if st.isEditing && st.selectedIssue.Some?
                            then UpdateIssue(st.selectedIssue.value.id, st.newIssue)
                            else CreateIssue(st.newIssue))
      && r == match outcome
              case Saved(true) => ResetForm(st, today).(showFormModal := false, isSubmitting := false)
              case Saved(false) => st.(formErrors := {}, isSubmitting := false)
              case SaveThrew => st.(formErrors := {General}, isSubmitting := false)
  {
    var errors, valid := ValidateIssueForm(st.newIssue);
    if valid.Failure? {
      return st, ValidatorThrew(valid.error);
    }
    r := st.(formErrors := errors);
    if !valid.value {
      return r, NotSent;
    }
    r := r.(isSubmitting := true);
    var request := if st.isEditing && st.selectedIssue.Some?
      then UpdateIssue(st.selectedIssue.value.id, st.newIssue)
      else CreateIssue(st.newIssue);
    submission := Sent(request);
    match outcome {
      case Saved(success) =>
        if success {
          assert ResetForm(r, today) == ResetForm(st, today).(isSubmitting := true);
          r := ResetForm(r, today);
          r := r.(showFormModal := false);
        }
      case SaveThrew =>
        r := r.(formErrors := {General});
    }
    r := r.(isSubmitting := false);
  }
}
