/** The add/edit task dialog (`TaskDialog` in `src/components/TaskDialog.tsx`):
    a form whose initial values come from the task prop of the first render,
    edits that each change one field, and a submit that hands the form to the
    task store and then asks the parent to close the dialog. The task store
    is not part of this model; what the dialog sends it is recorded as
    actions. */
module TaskDialog {
  import opened Wrappers
  import opened JsString
  import opened TaskTypes

  datatype FormData = FormData(
    title: string,
    description: string,
    dueDate: string,
    category: Category,
    priority: Priority)

  /** The record handed to `addTask`: the form with `completed` added. */
  datatype NewTask = NewTask(form: FormData, completed: bool)

  /** A call the dialog makes: to the task store, or to `onOpenChange`. */
  datatype Action = UpdateTask(id: string, changes: FormData) | AddTask(task: NewTask) | OpenChange(open: bool)

  /** `dueDate.split('T')[0]`: the date part of a timestamp, up to the first 'T'. */
  function DatePart(dueDate: string): (r: string)
    ensures r <= dueDate && 'T' !in r
    ensures |r| < |dueDate| ==> dueDate[|r|] == 'T'
  {
    SplitFirst(dueDate, 'T');
    Split(dueDate, 'T')[0]
  }

  /** A date part has no time part left to cut. */
  lemma DatePartIdempotent(dueDate: string)
    ensures DatePart(DatePart(dueDate)) == DatePart(dueDate)
  {
    var d := DatePart(dueDate);
    SplitSingle(d, 'T');
  }

  /** The form the dialog opens with: for an existing task its text,
      category and priority and the date part of its due date; otherwise a
      blank form in category work and priority medium. The `|| ''` fallbacks
      change nothing here: an empty string falls back to the empty string,
      and a category or priority is never empty. */
  function InitialForm(task: Option<Task>): (f: FormData)
    ensures task.None? ==> f.title == [] && f.description == [] && f.dueDate == []
                           && f.category == Work && f.priority == Medium
    ensures task.Some? ==>
              && f.title == task.value.title && f.description == task.value.description
              && f.category == task.value.category && f.priority == task.value.priority
              && f.dueDate <= task.value.dueDate && 'T' !in f.dueDate
              && (|f.dueDate| < |task.value.dueDate| ==> task.value.dueDate[|f.dueDate|] == 'T')
  {
    match task
    case None => FormData([], [], [], Work, Medium)
    case Some(t) => FormData(t.title, t.description, DatePart(t.dueDate), t.category, t.priority)
  }

  /** A task due at an ISO timestamp, a date, 'T' and a time, opens with
      the bare date. */
  lemma InitialFormDate(t: Task, date: string, time: string)
    requires t.dueDate == date + "T" + time && 'T' !in date
    ensures InitialForm(Some(t)).dueDate == date
  {
    var s, d := t.dueDate, InitialForm(Some(t)).dueDate;
    assert forall k :: 0 <= k < |date| ==> s[k] == date[k];
    assert s[|date|] == 'T';
    assert |d| == |date|;
    assert d == s[..|date|];
  }

  // ---------------------------------------------------------------------
  // Field edits

  datatype Field = TitleField | DescriptionField | DueDateField | CategoryField | PriorityField

  /** One `onChange` handler's update of the form. */
  datatype Edit =
    | EditTitle(title: string)
    | EditDescription(description: string)
    | EditDueDate(dueDate: string)
    | EditCategory(category: Category)
    | EditPriority(priority: Priority)

  function FieldOf(e: Edit): Field {
    match e
    case EditTitle(_) => TitleField
    case EditDescription(_) => DescriptionField
    case EditDueDate(_) => DueDateField
    case EditCategory(_) => CategoryField
    case EditPriority(_) => PriorityField
  }

  /** The two forms agree on every field except possibly `field`. */
  predicate SameExcept(f: FormData, g: FormData, field: Field) {
    && (field != TitleField ==> f.title == g.title)
    && (field != DescriptionField ==> f.description == g.description)
    && (field != DueDateField ==> f.dueDate == g.dueDate)
    && (field != CategoryField ==> f.category == g.category)
    && (field != PriorityField ==> f.priority == g.priority)
  }

  /** The form holds the value the edit entered. */
  predicate Shows(f: FormData, e: Edit) {
    match e
    case EditTitle(v) => f.title == v
    case EditDescription(v) => f.description == v
    case EditDueDate(v) => f.dueDate == v
    case EditCategory(v) => f.category == v
    case EditPriority(v) => f.priority == v
  }

  /** `setFormData(prev => ({ ...prev, field: value }))`: the edited field
      takes the new value and every other field keeps its own. */
  function Apply(f: FormData, e: Edit): (r: FormData)
    ensures Shows(r, e) && SameExcept(f, r, FieldOf(e))
  {
    match e
    case EditTitle(v) => f.(title := v)
    case EditDescription(v) => f.(description := v)
    case EditDueDate(v) => f.(dueDate := v)
    case EditCategory(v) => f.(category := v)
    case EditPriority(v) => f.(priority := v)
  }

  /** Edits of different fields can happen in either order. */
  lemma EditsCommute(f: FormData, e1: Edit, e2: Edit)
    requires FieldOf(e1) != FieldOf(e2)
    ensures Apply(Apply(f, e1), e2) == Apply(Apply(f, e2), e1)
  {
  }

  /** Of two edits of the same field, the later one wins. */
  lemma LastEditWins(f: FormData, e1: Edit, e2: Edit)
    requires FieldOf(e1) == FieldOf(e2)
    ensures Apply(Apply(f, e1), e2) == Apply(f, e2)
  {
  }

  // ---------------------------------------------------------------------
  // Submitting

  /** The browser submits the form only when the inputs marked `required`,
      the title and the due date, are filled in. */
  predicate Submittable(f: FormData) {
    f.title != [] && f.dueDate != []
  }

  /** `handleSubmit`: an update of the edited task, or an addition of the
      form as a task that is not completed, followed by closing the dialog. */
  function SubmitActions(task: Option<Task>, f: FormData): (r: seq<Action>)
    ensures |r| == 2 && r[1] == OpenChange(false)
    ensures task.Some? ==> r[0] == UpdateTask(task.value.id, f) && forall a :: a in r ==> !a.AddTask?
    ensures task.None? ==> r[0] == AddTask(NewTask(f, false)) && forall a :: a in r ==> !a.UpdateTask?
  {
    match task
    case Some(t) => [UpdateTask(t.id, f), OpenChange(false)]
    case None => [AddTask(NewTask(f, false)), OpenChange(false)]
  }

  /** One mounted dialog. `task` is the prop of the latest render; the form
      state is initialised from the prop of the first render only. */
  class TaskDialogState {
    var task: Option<Task>
    var formData: FormData
    /** The calls made so far, oldest first. */
    var sent: seq<Action>

    /** Mounting: the `useState` initializer runs on the first render's prop. */
    constructor (task: Option<Task>)
      ensures this.task == task && formData == InitialForm(task) && sent == []
    {
      this.task := task;
      formData := InitialForm(task);
      sent := [];
    }

    /** A later render with a new `task` prop. `useState` ignores its
        initializer after the first render, so the form keeps its values;
        the frame says that `formData` and `sent` stay as they were. */
    method Rerender(task: Option<Task>)
      modifies this`task
      ensures this.task == task && formData == old(formData) && sent == old(sent)
    {
      this.task := task;
    }

    /** A fresh mount for the new prop, as a dialog keyed by the task would
        get: the form starts again from that task. */
    method Remount(task: Option<Task>)
      modifies this`task, this`formData
      ensures this.task == task && formData == InitialForm(task)
    {
      this.task := task;
      formData := InitialForm(task);
    }

    /** A field's `onChange`. */
    method Edit(e: Edit)
      modifies this`formData
      ensures formData == Apply(old(formData), e)
    {
      match e
      case EditTitle(v) => formData := formData.(title := v);
      case EditDescription(v) => formData := formData.(description := v);
      case EditDueDate(v) => formData := formData.(dueDate := v);
      case EditCategory(v) => formData := formData.(category := v);
      case EditPriority(v) => formData := formData.(priority := v);
    }

    /** Pressing the submit button: `handleSubmit` runs only on a form the
        browser accepts, and then sends its two calls. */
    method Submit() returns (handled: bool)
      modifies this`sent
      ensures handled == Submittable(formData)
      ensures sent == old(sent) + (if handled then SubmitActions(task, formData) else [])
    {
      handled := formData.title != [] && formData.dueDate != [];
      if handled {
        match task {
          case Some(t) =>
            sent := sent + [UpdateTask(t.id, formData)];
          case None =>
            sent := sent + [AddTask(NewTask(formData, false))];
        }
        sent := sent + [OpenChange(false)];
      }
    }

    /** The cancel button only asks the parent to close the dialog. */
    method Cancel()
      modifies this`sent
      ensures sent == old(sent) + [OpenChange(false)]
    {
      sent := sent + [OpenChange(false)];
    }
  }

  // ---------------------------------------------------------------------
  // Opening the dashboard's dialog on a task

  /** The dashboard renders one dialog, first with no task. Opening it on
      `t` only changes the prop, so the form is still blank; once the user
      fills in the two required fields, the update sends the blank form's
      description, category and priority in place of `t`'s. */
  method EditAfterPropChange(t: Task, title: string, date: string) returns (sent: seq<Action>)
    requires title != [] && date != []
    ensures sent == [UpdateTask(t.id, FormData(title, [], date, Work, Medium)), OpenChange(false)]
    ensures t.description != [] || t.category != Work || t.priority != Medium ==>
              sent[0].changes != Apply(Apply(InitialForm(Some(t)), EditTitle(title)), EditDueDate(date))
  {
    var dialog := new TaskDialogState(None);
    dialog.Rerender(Some(t));
    dialog.Edit(EditTitle(title));
    dialog.Edit(EditDueDate(date));
    var handled := dialog.Submit();
    sent := dialog.sent;
  }

  /** The same steps on a dialog that starts again for each task: the
      update keeps the task's own description, category and priority. */
  method EditAfterRemount(t: Task, title: string, date: string) returns (sent: seq<Action>)
    requires title != [] && date != []
    ensures sent == [UpdateTask(t.id, FormData(title, t.description, date, t.category, t.priority)), OpenChange(false)]
    ensures sent[0].changes == Apply(Apply(InitialForm(Some(t)), EditTitle(title)), EditDueDate(date))
  {
    var dialog := new TaskDialogState(None);
    dialog.Remount(Some(t));
    dialog.Edit(EditTitle(title));
    dialog.Edit(EditDueDate(date));
    var handled := dialog.Submit();
    sent := dialog.sent;
  }
}
