/** `localStorageAdapter`: forms and submissions kept as JSON arrays, newest save first. */
module LocalStore {
  import opened Text
  import opened Sorting
  import opened Keyed

  datatype Form = Form(id: Text, blobId: Option<Text>, content: Text)

  datatype Submission = Submission(id: Text, formId: Text, createdAt: Text, blobId: Option<Text>, content: Text)

  const FORM_BLOB: Text := Ascii("walrus-form-")
  const SUBMISSION_BLOB: Text := Ascii("walrus-submission-")

  /** The arrays behind the two storage keys. */
  datatype Store = Store(forms: seq<Form>, submissions: seq<Submission>)

  const EMPTY: Store := Store([], [])

  const FORM_ID: Form -> Text := (f: Form) => f.id
  const SUBMISSION_ID: Submission -> Text := (s: Submission) => s.id

  function WithBlob(f: Form): Form {
    if f.blobId.Some? then f else f.(blobId := Some(FORM_BLOB + f.id))
  }

  function SubmissionWithBlob(s: Submission): Submission {
    if s.blobId.Some? then s else s.(blobId := Some(SUBMISSION_BLOB + s.id))
  }

  // ---------- Operations ----------

  function SaveForm(st: Store, form: Form): Store {
    st.(forms := [WithBlob(form)] + Filter((f: Form) => f.id != form.id, st.forms))
  }

  function DeleteForms(st: Store, ids: set<Text>): Store {
    if ids == {} then st
    else
      Store(Filter((f: Form) => f.id !in ids, st.forms),
            Filter((s: Submission) => s.formId !in ids, st.submissions))
  }

  function SaveSubmission(st: Store, sub: Submission): Store {
    st.(submissions := [SubmissionWithBlob(sub)] + Filter((s: Submission) => s.id != sub.id, st.submissions))
  }

  function UpdateSubmission(st: Store, sub: Submission): Store {
    st.(submissions := Replace(SUBMISSION_ID, st.submissions, sub))
  }

  /** `right.createdAt.localeCompare(left.createdAt)`, for any total preorder on the timestamps. */
  const TIME: Submission -> Text := (x: Submission) => x.createdAt

  function Newest(later: (Text, Text) -> bool): (Submission, Submission) -> bool {
    OrderBy(later, TIME)
  }

  function ListSubmissions(later: (Text, Text) -> bool, st: Store, formId: Text): seq<Submission> {
    Sort(Newest(later), Filter((s: Submission) => s.formId == formId, st.submissions))
  }

  // ---------- The specification ----------

  /** What the adapter is meant to keep: forms by id, submissions by id. */
  datatype Records = Records(forms: map<Text, Form>, submissions: map<Text, Submission>)

  ghost function Abstract(st: Store): Records {
    Records(Index(FORM_ID, st.forms), Index(SUBMISSION_ID, st.submissions))
  }

  datatype Operation =
    | Save(form: Form)
    | Delete(ids: set<Text>)
    | Submit(submission: Submission)
    | Update(submission: Submission)

  function Apply(st: Store, op: Operation): Store {
    match op
    case Save(form) => SaveForm(st, form)
    case Delete(ids) => DeleteForms(st, ids)
    case Submit(sub) => SaveSubmission(st, sub)
    case Update(sub) => UpdateSubmission(st, sub)
  }

  /** Saving sets an entry, deleting forms removes them and their submissions, updating needs an entry. */
  function ApplyToRecords(r: Records, op: Operation): Records {
    match op
    case Save(form) => r.(forms := r.forms[form.id := WithBlob(form)])
    case Delete(ids) =>
      Records(r.forms - ids, map id | id in r.submissions && r.submissions[id].formId !in ids :: r.submissions[id])
    case Submit(sub) => r.(submissions := r.submissions[sub.id := SubmissionWithBlob(sub)])
    case Update(sub) => if sub.id in r.submissions then r.(submissions := r.submissions[sub.id := sub]) else r
  }

  ghost predicate IdsUnique(st: Store) {
    Unique(FORM_ID, st.forms) && Unique(SUBMISSION_ID, st.submissions)
  }

  lemma SaveRefines(st: Store, form: Form)
    requires IdsUnique(st)
    ensures IdsUnique(SaveForm(st, form)) && Abstract(SaveForm(st, form)) == ApplyToRecords(Abstract(st), Save(form))
  {
    IndexPut(FORM_ID, WithBlob(form), st.forms, (f: Form) => f.id != form.id);
  }

  lemma SubmitRefines(st: Store, sub: Submission)
    requires IdsUnique(st)
    ensures IdsUnique(SaveSubmission(st, sub))
    ensures Abstract(SaveSubmission(st, sub)) == ApplyToRecords(Abstract(st), Submit(sub))
  {
    IndexPut(SUBMISSION_ID, SubmissionWithBlob(sub), st.submissions, (s: Submission) => s.id != sub.id);
  }

  lemma DeleteFormsIndex(forms: seq<Form>, ids: set<Text>)
    requires Unique(FORM_ID, forms)
    ensures Unique(FORM_ID, Filter((f: Form) => f.id !in ids, forms))
    ensures Index(FORM_ID, Filter((f: Form) => f.id !in ids, forms)) == Index(FORM_ID, forms) - ids
  {
    IndexFilter(FORM_ID, (f: Form) => f.id !in ids, forms);
  }

  lemma DeleteRefines(st: Store, ids: set<Text>)
    requires IdsUnique(st)
    ensures IdsUnique(DeleteForms(st, ids)) && Abstract(DeleteForms(st, ids)) == ApplyToRecords(Abstract(st), Delete(ids))
  {
    if ids != {} {
      DeleteFormsIndex(st.forms, ids);
      IndexFilter(SUBMISSION_ID, (s: Submission) => s.formId !in ids, st.submissions);
    }
  }

  lemma StepRefines(st: Store, op: Operation)
    requires IdsUnique(st)
    ensures IdsUnique(Apply(st, op)) && Abstract(Apply(st, op)) == ApplyToRecords(Abstract(st), op)
  {
    match op
    case Save(form) => SaveRefines(st, form);
    case Delete(ids) => DeleteRefines(st, ids);
    case Submit(sub) => SubmitRefines(st, sub);
    case Update(sub) => IndexReplace(SUBMISSION_ID, st.submissions, sub);
  }

  // ---------- Main results ----------

  function Run(ops: seq<Operation>): Store {
    if ops == [] then EMPTY else Apply(Run(ops[..|ops| - 1]), ops[|ops| - 1])
  }

  function RunOnRecords(ops: seq<Operation>): Records {
    if ops == [] then Records(map[], map[]) else ApplyToRecords(RunOnRecords(ops[..|ops| - 1]), ops[|ops| - 1])
  }

  /** Over any run from empty storage the arrays hold every id once and are the map of the same run. */
  lemma {:induction false} RunRefines(ops: seq<Operation>)
    ensures IdsUnique(Run(ops)) && Abstract(Run(ops)) == RunOnRecords(ops)
  {
    if ops == [] {
    } else {
      RunRefines(ops[..|ops| - 1]);
      StepRefines(Run(ops[..|ops| - 1]), ops[|ops| - 1]);
    }
  }

  /** `getForm` gives the last save of the form that was not deleted since. */
  lemma {:induction false} GetGivesLastSave(ops: seq<Operation>, id: Text)
    ensures Find(FORM_ID, Run(ops).forms, id) == LastSave(ops, id)
  {
    RunRefines(ops);
    LastSaveIsLookup(ops, id);
  }

  /** A saved form is read back as it was given, with the blob id it had or one made of its id. */
  lemma SavedFormReadsBack(st: Store, form: Form)
    requires IdsUnique(st)
    ensures Find(FORM_ID, SaveForm(st, form).forms, form.id) ==
            Some(Form(form.id, Some(if form.blobId.Some? then form.blobId.value else Ascii("walrus-form-") + form.id), form.content))
  {
    SaveRefines(st, form);
  }

  /** And so is a saved submission, which leaves the forms alone. */
  lemma SavedSubmissionReadsBack(st: Store, sub: Submission)
    requires IdsUnique(st)
    ensures Find(SUBMISSION_ID, SaveSubmission(st, sub).submissions, sub.id) ==
            Some(sub.(blobId := Some(if sub.blobId.Some? then sub.blobId.value else Ascii("walrus-submission-") + sub.id)))
    ensures SaveSubmission(st, sub).forms == st.forms
  {
    SubmitRefines(st, sub);
  }

  function LastSave(ops: seq<Operation>, id: Text): Option<Form> {
    if ops == [] then None
    else
      match ops[|ops| - 1]
      case Save(form) => if form.id == id then Some(WithBlob(form)) else LastSave(ops[..|ops| - 1], id)
      case Delete(ids) => if id in ids then None else LastSave(ops[..|ops| - 1], id)
      case _ => LastSave(ops[..|ops| - 1], id)
  }

  lemma {:induction false} LastSaveIsLookup(ops: seq<Operation>, id: Text)
    ensures LastSave(ops, id) == if id in RunOnRecords(ops).forms then Some(RunOnRecords(ops).forms[id]) else None
  {
    if ops == [] {
    } else {
      LastSaveIsLookup(ops[..|ops| - 1], id);
    }
  }

  /** Deleting forms leaves no submission of theirs, and all other submissions untouched and in order. */
  lemma DeleteCascades(st: Store, ids: set<Text>)
    ensures var r := DeleteForms(st, ids);
            && (forall s :: s in r.submissions <==> s in st.submissions && s.formId !in ids)
            && (forall f :: f in r.forms <==> f in st.forms && f.id !in ids)
            && (forall keep: Submission -> bool :: (forall s :: keep(s) ==> s.formId !in ids) ==>
                  Filter(keep, r.submissions) == Filter(keep, st.submissions))
  {
    var r := DeleteForms(st, ids);
    forall keep: Submission -> bool | forall s :: keep(s) ==> s.formId !in ids
      ensures Filter(keep, r.submissions) == Filter(keep, st.submissions)
    {
      if ids != {} {
        FilterFiltered(keep, (s: Submission) => s.formId !in ids, st.submissions);
      }
    }
  }

  lemma {:induction false} FilterFiltered<T(!new)>(keep: T -> bool, outer: T -> bool, s: seq<T>)
    requires forall i :: 0 <= i < |s| && keep(s[i]) ==> outer(s[i])
    ensures Filter(keep, Filter(outer, s)) == Filter(keep, s)
  {
    if s == [] {
    } else {
      FilterFiltered(keep, outer, s[1..]);
      if outer(s[0]) {
        assert ([s[0]] + Filter(outer, s[1..]))[1..] == Filter(outer, s[1..]);
      }
    }
  }

  function At(time: Text): Submission -> bool {
    (s: Submission) => s.createdAt == time
  }

  /** `listSubmissions` lists exactly the form's submissions, newest first, ties in stored order. */
  lemma ListIsNewestFirst(later: (Text, Text) -> bool, st: Store, formId: Text)
    requires TotalPreorder(later)
    ensures var r := ListSubmissions(later, st, formId); var own := Filter((s: Submission) => s.formId == formId, st.submissions);
            && multiset(r) == multiset(own)
            && (forall i, j :: 0 <= i < j < |r| ==> later(r[i].createdAt, r[j].createdAt))
            && (forall time :: Filter(At(time), r) == Filter(At(time), own))
  {
    var own := Filter((s: Submission) => s.formId == formId, st.submissions);
    OrderByPreorder(later, TIME);
    SortSorts(Newest(later), own);
    forall time ensures Filter(At(time), ListSubmissions(later, st, formId)) == Filter(At(time), own) {
      SortStable(Newest(later), At(time), own);
    }
  }

  // ---------- The adapter ----------

  class LocalStorageAdapter {
    var forms: seq<Form>
    var submissions: seq<Submission>

    function Contents(): Store
      reads this
    {
      Store(forms, submissions)
    }

    constructor ()
      ensures Contents() == EMPTY
    {
      forms, submissions := [], [];
    }

    method SaveForm(form: Form) returns (blobId: Text)
      modifies this
      ensures Contents() == Apply(old(Contents()), Save(form))
      ensures Some(blobId) == WithBlob(form).blobId
    {
      var nextForms := Filter((f: Form) => f.id != form.id, forms);
      blobId := if form.blobId.Some? then form.blobId.value else FORM_BLOB + form.id;
      forms := [form.(blobId := Some(blobId))] + nextForms;
    }

    method GetForm(id: Text) returns (r: Option<Form>)
      ensures var m := Abstract(Contents()).forms; r == if id in m then Some(m[id]) else None
    {
      r := Find(FORM_ID, forms, id);
    }

    method DeleteForms(ids: set<Text>)
      modifies this
      ensures Contents() == Apply(old(Contents()), Delete(ids))
    {
      if ids == {} {
        return;
      }
      forms := Filter((f: Form) => f.id !in ids, forms);
      submissions := Filter((s: Submission) => s.formId !in ids, submissions);
    }

    method SaveSubmission(submission: Submission) returns (blobId: Text)
      modifies this
      ensures Contents() == Apply(old(Contents()), Submit(submission))
      ensures Some(blobId) == SubmissionWithBlob(submission).blobId
    {
      var nextSubmissions := Filter((s: Submission) => s.id != submission.id, submissions);
      blobId := if submission.blobId.Some? then submission.blobId.value else SUBMISSION_BLOB + submission.id;
      submissions := [submission.(blobId := Some(blobId))] + nextSubmissions;
    }

    method ListSubmissions(later: (Text, Text) -> bool, formId: Text) returns (r: seq<Submission>)
      requires TotalPreorder(later)
      ensures multiset(r) == multiset(Filter((s: Submission) => s.formId == formId, submissions))
      ensures forall i, j :: 0 <= i < j < |r| ==> later(r[i].createdAt, r[j].createdAt)
    {
      ListIsNewestFirst(later, Contents(), formId);
      r := Sort(Newest(later), Filter((s: Submission) => s.formId == formId, submissions));
    }

    method UpdateSubmission(submission: Submission)
      modifies this
      ensures Contents() == Apply(old(Contents()), Update(submission))
    {
      submissions := Replace(SUBMISSION_ID, submissions, submission);
    }
  }
}
