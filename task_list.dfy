/** The view-model helpers of the `TaskList` component
    (frontend/src/components/TaskList.jsx): filtering and sorting the visible
    tasks, the option lists of the filter menus, the progress bar, the
    complete/reopen toggle, the blank-comment guard and the badge classes. */
module TaskList {
  import opened Optional
  import opened TaskSchema
  import opened Lists
  import opened TaskOrder

  /** The task fields a filter menu can constrain. */
  datatype Field = StatusField | PriorityField | CategoryField | AssignedToField

  /** `task[field]`: a missing optional field reads `undefined`. */
  function FieldValue(t: Task, f: Field): Option<string> {
    match f
    case StatusField => Some(StatusName(t.status))
    case PriorityField => Some(PriorityName(t.priority))
    case CategoryField => t.category
    case AssignedToField => t.assignedTo
  }

  /** The component's filter state. */
  datatype Filters = Filters(status: string, priority: string, category: string, assignedTo: string, sortBy: string)

  /** The initial filter state: no constraint, sorted by due date. */
  const InitialFilters := Filters("all", "all", "all", "all", "dueDate")

  /** One clause of the filter: the sentinel "all", or strict equality with the field. */
  predicate Admits(filter: string, value: Option<string>) {
    filter == "all" || value == Some(filter)
  }

  predicate Passes(filters: Filters, t: Task) {
    Admits(filters.status, FieldValue(t, StatusField)) &&
    Admits(filters.priority, FieldValue(t, PriorityField)) &&
    Admits(filters.category, FieldValue(t, CategoryField)) &&
    Admits(filters.assignedTo, FieldValue(t, AssignedToField))
  }

  /** The `tasks.filter(...)` step of `getFilteredTasks`. */
  function FilteredTasks(tasks: seq<Task>, filters: Filters): (r: seq<Task>)
    ensures |r| <= |tasks|
  {
    Filter(tasks, (t: Task) => Passes(filters, t))
  }

  /** `getFilteredTasks()`: the kept tasks, sorted by `filters.sortBy`. When a
      due-date sort meets a task without a due date the comparator yields NaN and
      the order is implementation-defined; the model then keeps the filtered order. */
  function VisibleTasks(tasks: seq<Task>, filters: Filters): (r: seq<Task>)
    ensures multiset(r) == multiset(FilteredTasks(tasks, filters))
  {
    var kept := FilteredTasks(tasks, filters);
    if Comparable(filters.sortBy, kept) then Sort(kept, filters.sortBy) else kept
  }

  /** A task is visible exactly when each of the four filters is "all" or equals
      the task's field. */
  lemma VisibleTasksMembers(tasks: seq<Task>, filters: Filters, t: Task)
    ensures t in VisibleTasks(tasks, filters) <==>
      t in tasks &&
      (filters.status == "all" || StatusName(t.status) == filters.status) &&
      (filters.priority == "all" || PriorityName(t.priority) == filters.priority) &&
      (filters.category == "all" || t.category == Some(filters.category)) &&
      (filters.assignedTo == "all" || t.assignedTo == Some(filters.assignedTo))
  {
    var kept := FilteredTasks(tasks, filters);
    FilterMembership(tasks, (t: Task) => Passes(filters, t));
    assert t in VisibleTasks(tasks, filters) <==> t in multiset(VisibleTasks(tasks, filters));
    assert t in kept <==> t in multiset(kept);
  }

  /** The visible tasks are a rearrangement of the tasks that pass the filter,
      which are themselves a subsequence of the list: nothing is invented or
      duplicated. */
  lemma VisibleTasksPermutation(tasks: seq<Task>, filters: Filters)
    ensures multiset(VisibleTasks(tasks, filters)) == multiset(FilteredTasks(tasks, filters))
    ensures IsSubsequence(FilteredTasks(tasks, filters), tasks)
    ensures forall t ::
              multiset(VisibleTasks(tasks, filters))[t] == (if Passes(filters, t) then multiset(tasks)[t] else 0)
  {
    FilterIsSubsequence(tasks, (t: Task) => Passes(filters, t));
    FilterCount(tasks, (t: Task) => Passes(filters, t));
  }

  /** With every filter at "all" the whole list is shown. */
  lemma AllFiltersShowEverything(tasks: seq<Task>, filters: Filters)
    requires filters.status == "all" && filters.priority == "all"
    requires filters.category == "all" && filters.assignedTo == "all"
    ensures FilteredTasks(tasks, filters) == tasks
    ensures multiset(VisibleTasks(tasks, filters)) == multiset(tasks)
  {
    FilterKeepsAll(tasks, (t: Task) => Passes(filters, t));
  }

  /** Whenever the comparator is consistent, the visible tasks are in
      comparator order: it never reports a later task as smaller. */
  lemma VisibleTasksOrdered(tasks: seq<Task>, filters: Filters, i: int, j: int)
    requires Comparable(filters.sortBy, FilteredTasks(tasks, filters))
    requires 0 <= i < j < |VisibleTasks(tasks, filters)|
    ensures var r := VisibleTasks(tasks, filters);
      Compare(filters.sortBy, r[i], r[j]).Some? && Compare(filters.sortBy, r[i], r[j]).value <= 0
  {
    var kept := FilteredTasks(tasks, filters);
    var r := VisibleTasks(tasks, filters);
    SortedPair(r, filters.sortBy, i, j);
    if filters.sortBy == "dueDate" {
      assert r[i] in multiset(kept) && r[j] in multiset(kept);
      var a :| 0 <= a < |kept| && kept[a] == r[i];
      var b :| 0 <= b < |kept| && kept[b] == r[j];
    }
    CompareByKey(filters.sortBy, r[i], r[j]);
  }

  /** Sorting by priority puts lower ranks first: urgent, high, medium, low. */
  lemma VisibleByPriority(tasks: seq<Task>, filters: Filters, i: int, j: int)
    requires filters.sortBy == "priority"
    requires 0 <= i < j < |VisibleTasks(tasks, filters)|
    ensures var r := VisibleTasks(tasks, filters);
      PriorityRank(r[i].priority) <= PriorityRank(r[j].priority) &&
      !(r[i].priority == Low && r[j].priority == Urgent)
  {
    SortedPair(VisibleTasks(tasks, filters), filters.sortBy, i, j);
  }

  /** Sorting by status orders the status names as text:
      completed, inProgress, review, todo. */
  lemma VisibleByStatus(tasks: seq<Task>, filters: Filters, i: int, j: int)
    requires filters.sortBy == "status"
    requires 0 <= i < j < |VisibleTasks(tasks, filters)|
    ensures var r := VisibleTasks(tasks, filters);
      LexCompare(StatusName(r[i].status), StatusName(r[j].status)) <= 0
  {
    var r := VisibleTasks(tasks, filters);
    SortedPair(r, filters.sortBy, i, j);
    assert Key(filters.sortBy, r[i]) == StatusRank(r[i].status);
    assert Key(filters.sortBy, r[j]) == StatusRank(r[j].status);
    StatusTextOrder(r[i].status, r[j].status);
  }

  /** The sort is stable: tasks the comparator calls equal keep their filtered order. */
  lemma VisibleTiesKeepOrder(tasks: seq<Task>, filters: Filters, k: int)
    ensures WithKey(VisibleTasks(tasks, filters), filters.sortBy, k) ==
            WithKey(FilteredTasks(tasks, filters), filters.sortBy, k)
  {
    SortStable(FilteredTasks(tasks, filters), filters.sortBy, k);
  }

  /** The initial view keeps every task; when every task has a due date it shows
      them by ascending due date, and otherwise (the comparator meeting NaN) in
      list order. */
  lemma InitialView(tasks: seq<Task>)
    ensures multiset(VisibleTasks(tasks, InitialFilters)) == multiset(tasks)
    ensures (forall k :: 0 <= k < |tasks| ==> tasks[k].dueDate.Some?) ==>
      forall i, j :: 0 <= i < j < |VisibleTasks(tasks, InitialFilters)| ==>
        VisibleTasks(tasks, InitialFilters)[i].dueDate.GetOr(0) <= VisibleTasks(tasks, InitialFilters)[j].dueDate.GetOr(0)
    ensures (exists k :: 0 <= k < |tasks| && tasks[k].dueDate.None?) ==> VisibleTasks(tasks, InitialFilters) == tasks
  {
    AllFiltersShowEverything(tasks, InitialFilters);
    var r := VisibleTasks(tasks, InitialFilters);
    if forall k :: 0 <= k < |tasks| ==> tasks[k].dueDate.Some? {
      forall i, j | 0 <= i < j < |r| ensures r[i].dueDate.GetOr(0) <= r[j].dueDate.GetOr(0) {
        SortedPair(r, "dueDate", i, j);
      }
    }
  }

  /** An unrecognised `sortBy` shows the filtered tasks in list order. */
  lemma VisibleUnsorted(tasks: seq<Task>, filters: Filters)
    requires filters.sortBy !in {"dueDate", "priority", "status"}
    ensures VisibleTasks(tasks, filters) == FilteredTasks(tasks, filters)
  {
    SortUnrecognised(FilteredTasks(tasks, filters), filters.sortBy);
  }

  /** A low-priority todo task and an urgent completed one, shown with no
      filter and sorted by priority: the urgent task comes first. */
  lemma PrioritySortScenario(t1: Task, t2: Task)
    requires t1.id == "1" && t1.status == Todo && t1.priority == Low
    requires t2.id == "2" && t2.status == Completed && t2.priority == Urgent
    ensures VisibleTasks([t1, t2], Filters("all", "all", "all", "all", "priority")) == [t2, t1]
  {
    var filters := Filters("all", "all", "all", "all", "priority");
    AllFiltersShowEverything([t1, t2], filters);
    assert [t1, t2][..1] == [t1];
    assert Sort([t1], "priority") == [t1];
    assert Insert([t1], t2, "priority") == Insert([], t2, "priority") + [t1];
  }

  /** The value `task[field]` contributes to an option list; `undefined` and ""
      are both falsy and dropped alike. */
  function FieldTexts(tasks: seq<Task>, f: Field): seq<string> {
    Map(tasks, (t: Task) => FieldValue(t, f).GetOr(""))
  }

  /** A value `filter(Boolean)` keeps: for the strings here, the non-empty ones. */
  predicate Truthy(v: string) {
    v != ""
  }

  /** `getUniqueValues(field)`: "all", then each truthy value of the field once,
      in the order the values first occur. */
  function UniqueValues(tasks: seq<Task>, f: Field): (r: seq<string>)
    ensures |r| >= 1 && r[0] == "all"
  {
    ["all"] + Distinct(Filter(FieldTexts(tasks, f), Truthy))
  }

  lemma UniqueValuesSpec(tasks: seq<Task>, f: Field)
    ensures var r := UniqueValues(tasks, f);
      |r| >= 1 && r[0] == "all" &&
      (forall i, j :: 1 <= i < j < |r| ==> r[i] != r[j]) &&
      (forall v :: v in r[1..] <==> v != "" && exists k :: 0 <= k < |tasks| && FieldValue(tasks[k], f) == Some(v))
  {
    var texts := FieldTexts(tasks, f);
    var p := Truthy;
    FilterMembership(texts, p);
    var r := UniqueValues(tasks, f);
    var d := Distinct(Filter(texts, p));
    assert r[1..] == d;
    forall v ensures v in d <==> v != "" && exists k :: 0 <= k < |tasks| && FieldValue(tasks[k], f) == Some(v) {
      if v in d {
        var k :| 0 <= k < |texts| && texts[k] == v;
        assert FieldValue(tasks[k], f) == Some(v);
      }
      if v != "" && exists k :: 0 <= k < |tasks| && FieldValue(tasks[k], f) == Some(v) {
        var k :| 0 <= k < |tasks| && FieldValue(tasks[k], f) == Some(v);
        assert texts[k] == v;
      }
    }
  }

  /** The options after "all" follow the order in which their first carrier
      appears in the task list. */
  lemma UniqueValuesFirstSeenOrder(tasks: seq<Task>, f: Field, i: int, j: int)
    requires 1 <= i < j < |UniqueValues(tasks, f)|
    ensures var r := UniqueValues(tasks, f);
      r[i] in FieldTexts(tasks, f) && r[j] in FieldTexts(tasks, f) &&
      FirstIndex(FieldTexts(tasks, f), r[i]) < FirstIndex(FieldTexts(tasks, f), r[j])
  {
    DistinctFilterOrder(FieldTexts(tasks, f), Truthy, "all", i, j);
  }

  lemma KeepTruthyTexts()
    ensures Filter(["A", "B", "A", ""], Truthy) == ["A", "B", "A"]
  {
    var t3: seq<string> := [""];
    var t2 := ["A"] + t3;
    var t1 := ["B"] + t2;
    var t0 := ["A"] + t1;
    assert t3[1..] == [] && t2[1..] == t3 && t1[1..] == t2 && t0[1..] == t1;
    assert Filter(t3, Truthy) == [];
    assert Filter(t2, Truthy) == ["A"];
    assert Filter(t1, Truthy) == ["B", "A"];
    assert t0 == ["A", "B", "A", ""];
  }

  lemma DistinctRepeat()
    ensures Distinct(["A", "B", "A"]) == ["A", "B"]
  {
    var kept: seq<string> := ["A", "B", "A"];
    var ab: seq<string> := ["A", "B"];
    assert kept == ab + ["A"];
    assert ab == ["A"] + ["B"];
    assert Distinct(["A"]) == ["A"];
    assert "B" !in Distinct(["A"]);
  }

  /** Categories "A", "B", "A" and a missing one give the options "all", "A", "B". */
  lemma CategoryOptionsScenario(a: Task, b: Task, c: Task, d: Task)
    requires a.category == Some("A") && b.category == Some("B")
    requires c.category == Some("A") && d.category.None?
    ensures UniqueValues([a, b, c, d], CategoryField) == ["all", "A", "B"]
  {
    var texts := FieldTexts([a, b, c, d], CategoryField);
    assert texts == ["A", "B", "A", ""];
    KeepTruthyTexts();
    var kept := Filter(texts, Truthy);
    assert kept == ["A", "B", "A"];
    DistinctRepeat();
    assert Distinct(kept) == ["A", "B"];
  }

  /** `calculateProgress`: `statusWeights[task.status] || 0`. */
  function Progress(status: string): (r: int)
    ensures 0 <= r <= 100
  {
    if status == "todo" then 0
    else if status == "inProgress" then 33
    else if status == "review" then 66
    else if status == "completed" then 100
    else 0
  }

  function CalculateProgress(t: Task): (r: int)
    ensures 0 <= r <= 100
  {
    Progress(StatusName(t.status))
  }

  /** Step of a status in the workflow todo, inProgress, review, completed. */
  function WorkflowStep(s: Status): nat {
    match s
    case Todo => 0
    case InProgress => 1
    case Review => 2
    case Completed => 3
  }

  /** Progress grows strictly along the workflow; it is full only when completed,
      and a status outside the enum shows no progress. */
  lemma ProgressFollowsWorkflow(a: Status, b: Status, s: string)
    ensures Progress(StatusName(a)) == 33 * WorkflowStep(a) + (if a == Completed then 1 else 0)
    ensures WorkflowStep(a) < WorkflowStep(b) ==> Progress(StatusName(a)) < Progress(StatusName(b))
    ensures Progress(StatusName(a)) == 100 <==> a == Completed
    ensures Progress(StatusName(a)) == 0 <==> a == Todo
    ensures ParseStatus(s).None? ==> Progress(s) == 0
  {
  }

  /** The status the Complete/Reopen button sends. */
  function ToggleStatus(s: Status): (r: Status)
    ensures r != s
    ensures r == Todo <==> s == Completed
  {
    if s == Completed then Todo else Completed
  }

  /** A completed task is reopened to todo and every other task is completed; the
      button always requests a different status; pressing it twice restores
      the status exactly for the two ends of the workflow. */
  lemma ToggleProperties(s: Status)
    ensures s == Completed ==> ToggleStatus(s) == Todo
    ensures s != Completed ==> ToggleStatus(s) == Completed
    ensures ToggleStatus(s) != s
    ensures ToggleStatus(s) == Todo <==> s == Completed
    ensures ToggleStatus(ToggleStatus(s)) == s <==> s == Todo || s == Completed
  {
  }

  /** The characters `String.prototype.trim` removes: the ECMAScript white space
      and line terminators. */
  predicate IsTrimmed(c: char) {
    var n := c as int;
    n == 0x09 || n == 0x0A || n == 0x0B || n == 0x0C || n == 0x0D || n == 0x20 ||
    n == 0xA0 || n == 0x1680 || (0x2000 <= n <= 0x200A) || n == 0x2028 ||
    n == 0x2029 || n == 0x202F || n == 0x205F || n == 0x3000 || n == 0xFEFF
  }

  function TrimStart(s: string): (r: string)
    ensures |r| <= |s| && r == s[|s| - |r|..]
    ensures forall i :: 0 <= i < |s| - |r| ==> IsTrimmed(s[i])
    ensures r == [] || !IsTrimmed(r[0])
  {
    if s != [] && IsTrimmed(s[0]) then TrimStart(s[1..]) else s
  }

  function TrimEnd(s: string): (r: string)
    ensures |r| <= |s| && r == s[..|r|]
    ensures forall i :: |r| <= i < |s| ==> IsTrimmed(s[i])
    ensures r == [] || !IsTrimmed(r[|r| - 1])
  {
    if s != [] && IsTrimmed(s[|s| - 1]) then TrimEnd(s[..|s| - 1]) else s
  }

  function Trim(s: string): string {
    TrimEnd(TrimStart(s))
  }

  /** `handleAddComment`'s guard: the draft for the task, if present and not blank
      after trimming, is what gets posted, untrimmed. */
  function CommentToPost(drafts: map<string, string>, taskId: string): (r: Option<string>)
    ensures r.Some? ==> taskId in drafts && r.value == drafts[taskId] && r.value != ""
  {
    if taskId in drafts && Trim(drafts[taskId]) != "" then Some(drafts[taskId]) else None
  }

  /** A comment is posted exactly when a draft exists and holds a character that
      is not white space; the posted text is the draft itself. */
  lemma CommentGuard(drafts: map<string, string>, taskId: string)
    ensures CommentToPost(drafts, taskId).Some? <==>
      taskId in drafts && exists i :: 0 <= i < |drafts[taskId]| && !IsTrimmed(drafts[taskId][i])
    ensures CommentToPost(drafts, taskId).Some? ==> CommentToPost(drafts, taskId).value == drafts[taskId]
  {
  }

  /** `getPriorityBadgeClass`. */
  function PriorityBadgeClass(priority: string): (r: string)
    ensures |r| > 6 && r[..6] == "badge "
    ensures r == "badge bg-secondary" <==> !(priority in {"low", "medium", "high", "urgent"})
  {
    "badge " + (if priority == "low" then "bg-success"
                else if priority == "medium" then "bg-info"
                else if priority == "high" then "bg-warning text-dark"
                else if priority == "urgent" then "bg-danger"
                else "bg-secondary")
  }

  /** `getStatusBadgeClass`. */
  function StatusBadgeClass(status: string): (r: string)
    ensures |r| > 6 && r[..6] == "badge "
    ensures r == "badge bg-secondary" <==> !(status in {"inProgress", "review", "completed"})
  {
    "badge " + (if status == "todo" then "bg-secondary"
                else if status == "inProgress" then "bg-primary"
                else if status == "review" then "bg-info"
                else if status == "completed" then "bg-success"
                else "bg-secondary")
  }

  /** Each schema priority has its own badge, none of them the fallback; any
      other value gets the fallback. */
  lemma PriorityBadgeDistinct(p: Priority, q: Priority, s: string)
    ensures PriorityBadgeClass(PriorityName(p)) == PriorityBadgeClass(PriorityName(q)) ==> p == q
    ensures PriorityBadgeClass(PriorityName(p)) != "badge bg-secondary"
    ensures ParsePriority(s).None? ==> PriorityBadgeClass(s) == "badge bg-secondary"
  {
  }

  /** Each schema status has its own badge; an unknown status falls back to the
      same badge as "todo". */
  lemma StatusBadgeDistinct(a: Status, b: Status, s: string)
    ensures StatusBadgeClass(StatusName(a)) == StatusBadgeClass(StatusName(b)) ==> a == b
    ensures ParseStatus(s).None? ==> StatusBadgeClass(s) == StatusBadgeClass(StatusName(Todo))
  {
    var ca, cb := StatusBadgeClass(StatusName(a)), StatusBadgeClass(StatusName(b));
    if ca == cb {
      assert ca[6..] == cb[6..];
    }
  }
}
