/** The Redux `tasks` slice (frontend/src/slices/tasksSlice.jsx): the client's
    list of tasks and the four reducers that produce a new list from the old
    one and an action's payload. None of them mutates the old list. */
module TasksSlice {
  import opened TaskSchema
  import opened Lists

  /** The slice's actions, one per reducer, with their payloads. */
  datatype Action =
    | SetAll(tasks: seq<Task>)
    | Add(task: Task)
    | Update(task: Task)
    | Delete(id: string)

  /** `setTasks`: the payload replaces the whole list. */
  function SetTasks(state: seq<Task>, payload: seq<Task>): (r: seq<Task>)
    ensures |r| == |payload| && forall i :: 0 <= i < |r| ==> r[i] == payload[i]
  {
    payload
  }

  /** `addTask`: `[...state, payload]`. */
  function AddTask(state: seq<Task>, payload: Task): (r: seq<Task>)
    ensures |r| == |state| + 1 && r[..|state|] == state && r[|state|] == payload
  {
    state + [payload]
  }

  /** `updateTask`: every task with the payload's `_id` becomes the payload. */
  function UpdateTask(state: seq<Task>, payload: Task): (r: seq<Task>)
    ensures |r| == |state|
  {
    Map(state, (t: Task) => if t.id == payload.id then payload else t)
  }

  /** `deleteTask`: drops every task whose `_id` is the payload. */
  function DeleteTask(state: seq<Task>, id: string): (r: seq<Task>)
    ensures |r| <= |state|
  {
    Filter(state, (t: Task) => t.id != id)
  }

  /** The slice reducer: dispatches an action to its case. */
  function Reduce(state: seq<Task>, action: Action): (r: seq<Task>)
    ensures action.SetAll? ==> r == action.tasks
    ensures action.Add? ==> |r| == |state| + 1 && r[|state|] == action.task
    ensures action.Update? ==> |r| == |state|
    ensures action.Delete? ==> |r| <= |state|
  {
    match action
    case SetAll(tasks) => SetTasks(state, tasks)
    case Add(task) => AddTask(state, task)
    case Update(task) => UpdateTask(state, task)
    case Delete(id) => DeleteTask(state, id)
  }

  /** Some task in the list carries `id`. */
  predicate HasId(state: seq<Task>, id: string) {
    exists i :: 0 <= i < |state| && state[i].id == id
  }

  /** No two tasks in the list share an `_id`. */
  predicate UniqueIds(state: seq<Task>) {
    forall i, j :: 0 <= i < |state| && 0 <= j < |state| && state[i].id == state[j].id ==> i == j
  }

  /** `setTasks` forgets the old list entirely. */
  lemma SetTasksIgnoresState(s1: seq<Task>, s2: seq<Task>, payload: seq<Task>)
    ensures Reduce(s1, SetAll(payload)) == Reduce(s2, SetAll(payload)) == payload
  {
  }

  /** `addTask` grows the list by one at the end and keeps every earlier task in place. */
  lemma AddTaskAppends(state: seq<Task>, payload: Task)
    ensures var r := Reduce(state, Add(payload));
      |r| == |state| + 1 && r[|state|] == payload &&
      forall i :: 0 <= i < |state| ==> r[i] == state[i]
  {
  }

  /** `updateTask` keeps the length; a task with the payload's id becomes the
      payload and every other task stays where it was. */
  lemma UpdateTaskPointwise(state: seq<Task>, payload: Task)
    ensures var r := Reduce(state, Update(payload));
      |r| == |state| &&
      forall i :: 0 <= i < |state| ==>
        (state[i].id == payload.id ==> r[i] == payload) &&
        (state[i].id != payload.id ==> r[i] == state[i])
  {
  }

  /** An update whose payload already matches every task with its id changes
      nothing; in particular an update for an id not in the list. */
  lemma UpdateTaskNoop(state: seq<Task>, payload: Task)
    requires forall i :: 0 <= i < |state| && state[i].id == payload.id ==> state[i] == payload
    ensures UpdateTask(state, payload) == state
  {
  }

  lemma UpdateTaskAbsent(state: seq<Task>, payload: Task)
    requires !HasId(state, payload.id)
    ensures UpdateTask(state, payload) == state
  {
  }

  /** Applying the same update twice is applying it once. */
  lemma UpdateTaskIdempotent(state: seq<Task>, payload: Task)
    ensures UpdateTask(UpdateTask(state, payload), payload) == UpdateTask(state, payload)
  {
  }

  /** After `deleteTask(id)` no task has that id; every other task keeps all its
      copies, and the survivors are a subsequence of the old list, in order. */
  lemma DeleteTaskRemoves(state: seq<Task>, id: string)
    ensures var r := DeleteTask(state, id);
      !HasId(r, id) &&
      IsSubsequence(r, state) &&
      forall t: Task :: t.id != id ==> multiset(r)[t] == multiset(state)[t]
  {
    var p := (t: Task) => t.id != id;
    FilterMembership(state, p);
    FilterCount(state, p);
    FilterIsSubsequence(state, p);
    var r := DeleteTask(state, id);
    forall i | 0 <= i < |r| ensures r[i].id != id {
      assert r[i] in Filter(state, p);
    }
  }

  /** Deleting an id that is not in the list changes nothing. */
  lemma DeleteTaskAbsent(state: seq<Task>, id: string)
    requires !HasId(state, id)
    ensures DeleteTask(state, id) == state
  {
    FilterKeepsAll(state, (t: Task) => t.id != id);
  }

  /** With unique ids, deleting a present id removes exactly one task. */
  lemma {:induction false} DeleteTaskShrinksByOne(state: seq<Task>, id: string)
    requires UniqueIds(state) && HasId(state, id)
    ensures |DeleteTask(state, id)| == |state| - 1
  {
    var p := (t: Task) => t.id != id;
    assert state == [state[0]] + state[1..];
    assert DeleteTask(state, id) == (if p(state[0]) then [state[0]] else []) + DeleteTask(state[1..], id);
    if state[0].id == id {
      assert !HasId(state[1..], id) by {
        forall i | 0 <= i < |state[1..]| ensures state[1..][i].id != id {
          assert state[i + 1].id == state[0].id ==> i + 1 == 0;
        }
      }
      DeleteTaskAbsent(state[1..], id);
    } else {
      var k :| 0 <= k < |state| && state[k].id == id;
      assert state[1..][k - 1].id == id;
      DeleteTaskShrinksByOne(state[1..], id);
    }
  }

  /** Deleting twice is deleting once. */
  lemma DeleteTaskIdempotent(state: seq<Task>, id: string)
    ensures DeleteTask(DeleteTask(state, id), id) == DeleteTask(state, id)
  {
    FilterIdempotent(state, (t: Task) => t.id != id);
  }

  /** The reducers keep ids unique, provided an added task brings a fresh id. */
  lemma ReducePreservesUniqueIds(state: seq<Task>, action: Action)
    requires UniqueIds(state)
    requires action.SetAll? ==> UniqueIds(action.tasks)
    requires action.Add? ==> !HasId(state, action.task.id)
    ensures UniqueIds(Reduce(state, action))
  {
    match action
    case SetAll(_) =>
    case Add(task) =>
    case Update(task) =>
      var r := UpdateTask(state, task);
      forall i, j | 0 <= i < |r| && 0 <= j < |r| && r[i].id == r[j].id ensures i == j {
        assert r[i].id == state[i].id && r[j].id == state[j].id;
      }
    case Delete(id) =>
      DeleteUnique(state, id);
  }

  lemma {:induction false} DeleteUnique(state: seq<Task>, id: string)
    requires UniqueIds(state)
    ensures UniqueIds(DeleteTask(state, id))
  {
    if state != [] {
      var p := (t: Task) => t.id != id;
      assert DeleteTask(state, id) == (if p(state[0]) then [state[0]] else []) + DeleteTask(state[1..], id);
      DeleteUnique(state[1..], id);
      FilterMembership(state[1..], p);
      var rest := DeleteTask(state[1..], id);
      forall i | 0 <= i < |rest| ensures rest[i].id != state[0].id {
        assert rest[i] in Filter(state[1..], p);
        var k :| 0 <= k < |state[1..]| && state[1..][k] == rest[i];
        assert state[k + 1].id == rest[i].id;
      }
    }
  }
}
