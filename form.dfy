/** The form side of the useTodo hook: the check for missing required
    fields (validateForm) and the submit handler that sends a complete form
    to the store as an update or as a new task. Alerts and re-rendering are
    not modelled. */
module FormHook {
  import opened Text
  import opened Sequences
  import opened TaskModel
  import opened TaskList
  import opened Service

  /** The names of the required fields, as the form reports them missing:
      the task name, the subject and the due date. */
  const TitleError: string := "Tên nhiệm vụ"
  const SubjectError: string := "Môn học"
  const DueError: string := "Ngày đến hạn"

  /** The form state; an empty due-date input is None, and `color` is
      present only after a task was picked for editing. */
  datatype FormData = FormData(
    title: string,
    description: string,
    subject: string,
    due: Option<int>,
    priority: string,
    color: Option<string>)

  /** The form has every required field. */
  predicate FormComplete(form: FormData) {
    Trim(form.title) != "" && Trim(form.subject) != "" && form.due.Some?
  }

  /** The error list for the given missing fields, in the fixed order. */
  function ErrorList(titleMissing: bool, subjectMissing: bool, dueMissing: bool): seq<string> {
    (if titleMissing then [TitleError] else [])
    + (if subjectMissing then [SubjectError] else [])
    + (if dueMissing then [DueError] else [])
  }

  /** An error list names each missing field once and nothing else, in the
      order title, subject, due date. */
  lemma ErrorListFacts(titleMissing: bool, subjectMissing: bool, dueMissing: bool)
    ensures var errors := ErrorList(titleMissing, subjectMissing, dueMissing);
      && (errors == [] <==> !titleMissing && !subjectMissing && !dueMissing)
      && (TitleError in errors <==> titleMissing)
      && (SubjectError in errors <==> subjectMissing)
      && (DueError in errors <==> dueMissing)
      && IsSubsequence(errors, [TitleError, SubjectError, DueError])
      && |errors| <= 3
      && (forall i, j :: 0 <= i < j < |errors| ==> errors[i] != errors[j])
  {
    assert TitleError[0] != SubjectError[0] && TitleError[0] != DueError[0];
    assert |SubjectError| != |DueError|;
    var first := if titleMissing then [TitleError] else [];
    var second := first + if subjectMissing then [SubjectError] else [];
    SubsequenceAppend([], [], TitleError);
    SubsequenceAppend(first, [TitleError], SubjectError);
    SubsequenceAppend(second, [TitleError, SubjectError], DueError);
  }

  /** validateForm: lists each missing required field once, in the order
      title, subject, due date; the list is empty exactly when the form is
      complete. */
  method ValidateForm(form: FormData) returns (errors: seq<string>)
    ensures errors == ErrorList(Trim(form.title) == "", Trim(form.subject) == "", form.due.None?)
    ensures errors == [] <==> FormComplete(form)
    ensures TitleError in errors <==> Trim(form.title) == ""
    ensures SubjectError in errors <==> Trim(form.subject) == ""
    ensures DueError in errors <==> form.due.None?
    ensures IsSubsequence(errors, [TitleError, SubjectError, DueError])
    ensures |errors| <= 3 && forall i, j :: 0 <= i < j < |errors| ==> errors[i] != errors[j]
  {
    errors := [];
    if Trim(form.title) == "" {
      errors := errors + [TitleError];
    }
    if Trim(form.subject) == "" {
      errors := errors + [SubjectError];
    }
    if form.due.None? {
      errors := errors + [DueError];
    }
    assert errors == ErrorList(Trim(form.title) == "", Trim(form.subject) == "", form.due.None?);
    ErrorListFacts(Trim(form.title) == "", Trim(form.subject) == "", form.due.None?);
  }

  /** The patch handleSubmit sends when editing: the form's fields as they
      are (the title is not trimmed on this path), and the colour only when
      the form carries one. */
  function FormPatch(form: FormData): (p: Patch)
    ensures p.title == Some(form.title) && p.subject == Some(form.subject)
    ensures p.description == Some(form.description) && p.priority == Some(form.priority)
    ensures p.due == Some(form.due) && p.color == form.color
    ensures p.id.None? && p.completed.None? && p.createdAt.None? && p.completedAt.None?
  {
    EmptyPatch.(title := Some(form.title), description := Some(form.description),
                subject := Some(form.subject), due := Some(form.due),
                priority := Some(form.priority), color := form.color)
  }

  /** An edit through the form never touches the id, the completion state
      or the creation time of the task. */
  lemma FormEditKeepsIdentity(t: Task, form: FormData, now: int)
    ensures var r := ApplyPatch(t, FormPatch(form), now);
      r.id == t.id && r.completed == t.completed && r.completedAt == t.completedAt
      && r.createdAt == t.createdAt
  {
  }

  /** What handleSubmit did. */
  datatype Submission = Rejected(errors: seq<string>) | Updated(updated: Option<Task>) | Added(added: Task)

  /** handleSubmit: an incomplete form changes nothing; otherwise the form
      updates the task being edited, when there is one (a non-empty id),
      and is added as a new task with the given colour otherwise. */
  method HandleSubmit(service: TodoService, form: FormData, editingTaskId: Option<string>,
                      newId: string, color: string, now: int)
    returns (outcome: Submission)
    modifies service
    ensures !FormComplete(form) ==>
      && outcome.Rejected? && outcome.errors != []
      && outcome.errors == ErrorList(Trim(form.title) == "", Trim(form.subject) == "", form.due.None?)
      && service.tasks == old(service.tasks)
    ensures FormComplete(form) && editingTaskId.Some? && editingTaskId.value != "" ==>
      && outcome.Updated?
      && service.tasks == UpdatedList(old(service.tasks), editingTaskId.value, FormPatch(form), now)
      && (outcome.updated.None? <==> FindIndex(old(service.tasks), editingTaskId.value) == -1)
      && (outcome.updated.Some? ==>
            outcome.updated.value == service.tasks[FindIndex(old(service.tasks), editingTaskId.value)])
    ensures FormComplete(form) && (editingTaskId.None? || editingTaskId.value == "") ==>
      outcome.Added? &&
      outcome.added == NewTask(TaskData(form.title, form.description, form.subject, form.due, form.priority, color), newId, now) &&
      service.tasks == [outcome.added] + old(service.tasks)
  {
    var errors := ValidateForm(form);
    if |errors| > 0 {
      return Rejected(errors);
    }
    if editingTaskId.Some? && editingTaskId.value != "" {
      var updated := service.UpdateTask(editingTaskId.value, FormPatch(form), now);
      outcome := Updated(updated);
    } else {
      var data := TaskData(form.title, form.description, form.subject, form.due, form.priority, color);
      var newTask := service.AddTask(data, newId, now);
      outcome := Added(newTask);
    }
  }
}
