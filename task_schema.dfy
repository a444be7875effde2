/** The Mongoose `Task` model (backend/models/Task.js): the stored record, the
    schema's defaults and validators, and the document whose `pre('save')` hook
    refreshes `updatedAt`. Dates are integer timestamps (milliseconds); the
    clock is the parameter `now`. */
module TaskSchema {
  import opened Optional

  datatype Priority = Low | Medium | High | Urgent
  datatype Status = Todo | InProgress | Review | Completed

  /** The enum strings the schema accepts for `priority`. */
  function PriorityName(p: Priority): string {
    match p
    case Low => "low"
    case Medium => "medium"
    case High => "high"
    case Urgent => "urgent"
  }

  /** The enum strings the schema accepts for `status`. */
  function StatusName(s: Status): string {
    match s
    case Todo => "todo"
    case InProgress => "inProgress"
    case Review => "review"
    case Completed => "completed"
  }

  /** The `enum` validator of `priority`: the value it stands for, if any. */
  function ParsePriority(s: string): (r: Option<Priority>)
    ensures r.Some? ==> PriorityName(r.value) == s
  {
    if s == "low" then Some(Low)
    else if s == "medium" then Some(Medium)
    else if s == "high" then Some(High)
    else if s == "urgent" then Some(Urgent)
    else None
  }

  /** The `enum` validator of `status`: the value it stands for, if any. */
  function ParseStatus(s: string): (r: Option<Status>)
    ensures r.Some? ==> StatusName(r.value) == s
  {
    if s == "todo" then Some(Todo)
    else if s == "inProgress" then Some(InProgress)
    else if s == "review" then Some(Review)
    else if s == "completed" then Some(Completed)
    else None
  }

  lemma ParsePriorityIff(s: string, p: Priority)
    ensures ParsePriority(s) == Some(p) <==> s == PriorityName(p)
  {
  }

  lemma ParseStatusIff(s: string, st: Status)
    ensures ParseStatus(s) == Some(st) <==> s == StatusName(st)
  {
  }

  /** A stored task, as the server returns it and the client keeps it. */
  datatype Task = Task(
    id: string,
    title: string,
    description: Option<string>,
    dueDate: Option<int>,
    priority: Priority,
    category: Option<string>,
    assignedTo: Option<string>,
    estimatedTime: Option<real>,
    status: Status,
    createdAt: int,
    updatedAt: int,
    comments: seq<string>)

  /** What the schema guarantees of every stored task beyond its field types:
      a non-empty title (a Mongoose `required` string rejects "") and a
      non-negative estimate. */
  predicate ValidTask(t: Task) {
    t.title != "" && (t.estimatedTime.None? || t.estimatedTime.value >= 0.0)
  }

  /** A request body, after casting to the schema's field types; every field may be missing. */
  datatype TaskInput = TaskInput(
    title: Option<string>,
    description: Option<string>,
    dueDate: Option<int>,
    priority: Option<string>,
    category: Option<string>,
    assignedTo: Option<string>,
    estimatedTime: Option<real>,
    status: Option<string>,
    createdAt: Option<int>,
    updatedAt: Option<int>,
    comments: Option<seq<string>>)

  /** The fields of a Mongoose document before validation: defaults filled in,
      enum fields still raw strings. */
  datatype Document = Document(
    id: string,
    title: Option<string>,
    description: Option<string>,
    dueDate: Option<int>,
    priority: string,
    category: Option<string>,
    assignedTo: Option<string>,
    estimatedTime: Option<real>,
    status: string,
    createdAt: int,
    updatedAt: int,
    comments: seq<string>)

  /** `new Task(body)`: the server-assigned id, and the schema defaults for
      every missing field that has one. */
  function WithDefaults(input: TaskInput, id: string, now: int): (r: Document)
    ensures r.id == id && r.title == input.title
    ensures r.description == input.description && r.dueDate == input.dueDate &&
            r.category == input.category && r.assignedTo == input.assignedTo &&
            r.estimatedTime == input.estimatedTime
    ensures input.priority.Some? ==> r.priority == input.priority.value
    ensures input.status.Some? ==> r.status == input.status.value
    ensures input.createdAt.Some? ==> r.createdAt == input.createdAt.value
    ensures input.updatedAt.Some? ==> r.updatedAt == input.updatedAt.value
    ensures input.comments.Some? ==> r.comments == input.comments.value
    ensures input.priority.None? ==> ParsePriority(r.priority) == Some(Medium)
    ensures input.status.None? ==> ParseStatus(r.status) == Some(Todo)
    ensures input.createdAt.None? ==> r.createdAt == now
    ensures input.updatedAt.None? ==> r.updatedAt == now
    ensures input.comments.None? ==> r.comments == []
  {
    Document(
      id,
      input.title,
      input.description,
      input.dueDate,
      input.priority.GetOr("medium"),
      input.category,
      input.assignedTo,
      input.estimatedTime,
      input.status.GetOr("todo"),
      input.createdAt.GetOr(now),
      input.updatedAt.GetOr(now),
      input.comments.GetOr([]))
  }

  /** The schema paths a validator can reject. */
  datatype Path = TitlePath | PriorityPath | EstimatedTimePath | StatusPath

  /** Every path whose validator fails; Mongoose reports all of them together. */
  function Violations(d: Document): (r: set<Path>)
    ensures TitlePath in r <==> d.title.None? || d.title.value == ""
    ensures PriorityPath in r <==> !(d.priority in {"low", "medium", "high", "urgent"})
    ensures StatusPath in r <==> !(d.status in {"todo", "inProgress", "review", "completed"})
    ensures EstimatedTimePath in r <==> d.estimatedTime.Some? && d.estimatedTime.value < 0.0
  {
    (if d.title.None? || d.title.value == "" then {TitlePath} else {}) +
    (if ParsePriority(d.priority).None? then {PriorityPath} else {}) +
    (if d.estimatedTime.Some? && d.estimatedTime.value < 0.0 then {EstimatedTimePath} else {}) +
    (if ParseStatus(d.status).None? then {StatusPath} else {})
  }

  /** Validation: the stored task, or the set of failing paths. */
  function Validate(d: Document): (r: Result<Task, set<Path>>)
    ensures r.Ok? <==> Violations(d) == {}
    ensures r.Err? ==> r.error == Violations(d) && r.error != {}
    ensures r.Ok? ==> ValidTask(r.value) && r.value.id == d.id
    ensures r.Ok? ==> PriorityName(r.value.priority) == d.priority && StatusName(r.value.status) == d.status
  {
    if Violations(d) != {} then Err(Violations(d))
    else
      assert TitlePath !in Violations(d) && PriorityPath !in Violations(d);
      assert StatusPath !in Violations(d) && EstimatedTimePath !in Violations(d);
      Ok(Task(d.id, d.title.value, d.description, d.dueDate,
              ParsePriority(d.priority).value, d.category, d.assignedTo,
              d.estimatedTime, ParseStatus(d.status).value,
              d.createdAt, d.updatedAt, d.comments))
  }

  /** The document a stored task is kept as. */
  function ToDocument(t: Task): Document {
    Document(t.id, Some(t.title), t.description, t.dueDate, PriorityName(t.priority),
             t.category, t.assignedTo, t.estimatedTime, StatusName(t.status),
             t.createdAt, t.updatedAt, t.comments)
  }

  /** Every valid task survives validation unchanged, and only valid tasks are stored. */
  lemma ValidateRoundTrip(t: Task)
    ensures Validate(ToDocument(t)) == (if ValidTask(t) then Ok(t) else Err(Violations(ToDocument(t))))
  {
  }

  /** Validation loses nothing: a document that validates is the stored form of its task. */
  lemma ValidateInverse(d: Document)
    requires Validate(d).Ok?
    ensures ToDocument(Validate(d).value) == d
  {
  }

  /** A request body that gives every field of a stored task. */
  function BodyOf(t: Task): TaskInput {
    TaskInput(Some(t.title), t.description, t.dueDate, Some(PriorityName(t.priority)),
              t.category, t.assignedTo, t.estimatedTime, Some(StatusName(t.status)),
              Some(t.createdAt), Some(t.updatedAt), Some(t.comments))
  }

  /** `new Task(body)` stores every given field as given: a body carrying all the
      fields of a valid task creates exactly that task, whatever the clock says. */
  lemma CreateRoundTrip(t: Task, now: int)
    ensures ValidTask(t) ==> Validate(WithDefaults(BodyOf(t), t.id, now)) == Ok(t)
    ensures !ValidTask(t) ==> Validate(WithDefaults(BodyOf(t), t.id, now)).Err?
  {
    assert WithDefaults(BodyOf(t), t.id, now) == ToDocument(t);
    ValidateRoundTrip(t);
  }

  /** What the schema demands of a request body, read off the schema's declarations. */
  predicate Acceptable(input: TaskInput) {
    input.title.Some? && input.title.value != "" &&
    (input.priority.None? || input.priority.value in {"low", "medium", "high", "urgent"}) &&
    (input.status.None? || input.status.value in {"todo", "inProgress", "review", "completed"}) &&
    (input.estimatedTime.None? || input.estimatedTime.value >= 0.0)
  }

  /** A new document validates exactly when its body is acceptable; then the
      omitted fields take their defaults. */
  lemma CreateValidates(input: TaskInput, id: string, now: int)
    ensures Validate(WithDefaults(input, id, now)).Ok? <==> Acceptable(input)
    ensures Validate(WithDefaults(input, id, now)).Ok? ==>
      var t := Validate(WithDefaults(input, id, now)).value;
      t.id == id &&
      (input.priority.None? ==> t.priority == Medium) &&
      (input.status.None? ==> t.status == Todo) &&
      (input.comments.None? ==> t.comments == []) &&
      (input.createdAt.None? ==> t.createdAt == now) &&
      (input.updatedAt.None? ==> t.updatedAt == now)
  {
  }

  /** A body without a title is rejected on the title path. */
  lemma MissingTitleRejected(input: TaskInput, id: string, now: int)
    requires input.title.None?
    ensures Validate(WithDefaults(input, id, now)).Err?
    ensures TitlePath in Validate(WithDefaults(input, id, now)).error
  {
  }

  /** Description, due date, category and assignee are optional: dropping them
      never changes the verdict. */
  lemma OptionalFieldsOptional(d: Document)
    ensures Validate(d.(description := None, dueDate := None, category := None, assignedTo := None)).Ok?
        <==> Validate(d).Ok?
  {
  }

  /** A Mongoose document: its fields are assigned in place by the save hook. */
  class TaskDocument {
    var id: string
    var title: Option<string>
    var description: Option<string>
    var dueDate: Option<int>
    var priority: string
    var category: Option<string>
    var assignedTo: Option<string>
    var estimatedTime: Option<real>
    var status: string
    var createdAt: int
    var updatedAt: int
    var comments: seq<string>

    /** The document's current field values. */
    function Fields(): Document
      reads this
    {
      Document(id, title, description, dueDate, priority, category, assignedTo,
               estimatedTime, status, createdAt, updatedAt, comments)
    }

    /** `new Task(body)`. */
    constructor (input: TaskInput, newId: string, now: int)
      ensures Fields() == WithDefaults(input, newId, now)
    {
      var d := WithDefaults(input, newId, now);
      id, title, description, dueDate := d.id, d.title, d.description, d.dueDate;
      priority, category, assignedTo := d.priority, d.category, d.assignedTo;
      estimatedTime, status, createdAt := d.estimatedTime, d.status, d.createdAt;
      updatedAt, comments := d.updatedAt, d.comments;
    }

    /** The `pre('save')` hook: stamps `updatedAt` with the clock and touches nothing else. */
    method TouchUpdatedAt(now: int)
      modifies this
      ensures Fields() == old(Fields()).(updatedAt := now)
    {
      updatedAt := now;
    }

    /** `save()`: validation runs first; only a document that passes reaches the
        hook, and the stored task then carries the save time. A rejected save
        leaves the document as it was. */
    method Save(now: int) returns (r: Result<Task, set<Path>>)
      modifies this
      ensures Violations(old(Fields())) != {} ==>
        r == Err(Violations(old(Fields()))) && Fields() == old(Fields())
      ensures Violations(old(Fields())) == {} ==>
        Fields() == old(Fields()).(updatedAt := now) &&
        r == Ok(Validate(old(Fields())).value.(updatedAt := now))
    {
      var v := Validate(Fields());
      if v.Err? {
        r := Err(v.error);
      } else {
        TouchUpdatedAt(now);
        r := Validate(Fields());
      }
    }
  }

  /** The hook keeps a stored task valid and changes only its timestamp. */
  lemma TouchKeepsTask(t: Task, now: int)
    requires ValidTask(t)
    ensures ValidTask(t.(updatedAt := now))
    ensures Validate(ToDocument(t).(updatedAt := now)) == Ok(t.(updatedAt := now))
  {
  }
}
