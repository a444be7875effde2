/** The ordering step of `getFilteredTasks` (frontend/src/components/TaskList.jsx,
    lines 26-39): the comparator chosen by `sortBy`, and the stable sort that
    `Array.prototype.sort` performs with it. */
module TaskOrder {
  import opened Optional
  import opened TaskSchema
  import opened Lists

  /** The `priorityOrder` table: urgent first. A name outside the table looks up
      `undefined`. */
  function PriorityOrder(name: string): (r: Option<int>)
    ensures r.Some? ==> 0 <= r.value <= 3
    ensures r.Some? <==> name in {"urgent", "high", "medium", "low"}
  {
    if name == "urgent" then Some(0)
    else if name == "high" then Some(1)
    else if name == "medium" then Some(2)
    else if name == "low" then Some(3)
    else None
  }

  /** The rank of a schema priority. Because the schema admits only the four
      enum names, the table has an entry for every stored priority. */
  function PriorityRank(p: Priority): (r: nat)
    ensures PriorityOrder(PriorityName(p)) == Some(r)
  {
    match p
    case Urgent => 0
    case High => 1
    case Medium => 2
    case Low => 3
  }

  /** `a.localeCompare(b)` as plain code-point lexicographic comparison: negative,
      zero or positive. */
  function LexCompare(a: string, b: string): (r: int)
    ensures -1 <= r <= 1
    ensures r == 0 <==> a == b
  {
    if a == [] && b == [] then 0
    else if a == [] then -1
    else if b == [] then 1
    else if a[0] < b[0] then -1
    else if a[0] > b[0] then 1
    else
      assert a == [a[0]] + a[1..] && b == [b[0]] + b[1..];
      LexCompare(a[1..], b[1..])
  }

  /** Position of a status in the text order of its name. */
  function StatusRank(s: Status): nat {
    match s
    case Completed => 0
    case InProgress => 1
    case Review => 2
    case Todo => 3
  }

  /** The four status names begin with distinct letters (c, i, r, t), so their
      text order is the rank order, whatever the locale. */
  lemma StatusTextOrder(a: Status, b: Status)
    ensures LexCompare(StatusName(a), StatusName(b)) < 0 <==> StatusRank(a) < StatusRank(b)
    ensures LexCompare(StatusName(a), StatusName(b)) == 0 <==> a == b
  {
  }

  /** The comparator passed to `sort`; `None` stands for `NaN`, which a
      subtraction involving a missing date yields. */
  function Compare(sortBy: string, a: Task, b: Task): (r: Option<int>)
    ensures r.None? ==> sortBy == "dueDate" && (a.dueDate.None? || b.dueDate.None?)
  {
    if sortBy == "dueDate" then
      if a.dueDate.Some? && b.dueDate.Some? then Some(a.dueDate.value - b.dueDate.value) else None
    else if sortBy == "priority" then
      var pa, pb := PriorityOrder(PriorityName(a.priority)), PriorityOrder(PriorityName(b.priority));
      assert pa.Some? && pb.Some? by {
        assert pa == Some(PriorityRank(a.priority)) && pb == Some(PriorityRank(b.priority));
      }
      if pa.Some? && pb.Some? then Some(pa.value - pb.value) else None
    else if sortBy == "status" then
      Some(LexCompare(StatusName(a.status), StatusName(b.status)))
    else
      Some(0)
  }

  /** The comparator is a consistent total order on `s`: for a due-date sort
      every task must have a due date. */
  predicate Comparable(sortBy: string, s: seq<Task>) {
    sortBy == "dueDate" ==> forall i :: 0 <= i < |s| ==> s[i].dueDate.Some?
  }

  /** The integer key the comparator compares. */
  function Key(sortBy: string, t: Task): int {
    if sortBy == "dueDate" then t.dueDate.GetOr(0)
    else if sortBy == "priority" then PriorityRank(t.priority)
    else if sortBy == "status" then StatusRank(t.status)
    else 0
  }

  /** Where it is defined, the comparator's sign is the key difference's sign. */
  lemma CompareByKey(sortBy: string, a: Task, b: Task)
    requires sortBy == "dueDate" ==> a.dueDate.Some? && b.dueDate.Some?
    ensures Compare(sortBy, a, b).Some?
    ensures Compare(sortBy, a, b).value < 0 <==> Key(sortBy, a) < Key(sortBy, b)
    ensures Compare(sortBy, a, b).value <= 0 <==> Key(sortBy, a) <= Key(sortBy, b)
  {
  }

  /** Neighbours are in key order. */
  predicate Sorted(s: seq<Task>, sortBy: string) {
    forall i :: 0 < i < |s| ==> Key(sortBy, s[i - 1]) <= Key(sortBy, s[i])
  }

  /** In a sorted sequence any earlier task has a key no larger than any later one. */
  lemma {:induction false} SortedPair(s: seq<Task>, sortBy: string, i: int, j: int)
    requires Sorted(s, sortBy) && 0 <= i <= j < |s|
    ensures Key(sortBy, s[i]) <= Key(sortBy, s[j])
    decreases j - i
  {
    if i < j {
      SortedPair(s, sortBy, i, j - 1);
    }
  }

  /** Inserts `x` after every element whose key is not larger: the step of a
      stable sort. */
  function Insert(sorted: seq<Task>, x: Task, sortBy: string): (r: seq<Task>)
    ensures multiset(r) == multiset(sorted) + multiset{x}
    ensures |r| == |sorted| + 1
    ensures r[|r| - 1] == x || (sorted != [] && r[|r| - 1] == sorted[|sorted| - 1])
  {
    if sorted == [] then [x]
    else
      var init, last := sorted[..|sorted| - 1], sorted[|sorted| - 1];
      assert sorted == init + [last];
      if Key(sortBy, x) < Key(sortBy, last) then
        Insert(init, x, sortBy) + [last]
      else
        sorted + [x]
  }

  /** Appending a task whose key is at least the last key keeps a sequence sorted. */
  lemma SortedSnoc(s: seq<Task>, t: Task, sortBy: string)
    requires Sorted(s, sortBy)
    requires s != [] ==> Key(sortBy, s[|s| - 1]) <= Key(sortBy, t)
    ensures Sorted(s + [t], sortBy)
  {
    var r := s + [t];
    forall i | 0 < i < |r|
      ensures Key(sortBy, r[i - 1]) <= Key(sortBy, r[i])
    {
      if i < |s| {
        assert r[i - 1] == s[i - 1] && r[i] == s[i];
      }
    }
  }

  /** Inserting into a sorted sequence keeps it sorted. */
  lemma {:induction false} InsertSorted(sorted: seq<Task>, x: Task, sortBy: string)
    requires Sorted(sorted, sortBy)
    ensures Sorted(Insert(sorted, x, sortBy), sortBy)
  {
    if sorted != [] {
      var init, last := sorted[..|sorted| - 1], sorted[|sorted| - 1];
      assert sorted == init + [last];
      if Key(sortBy, x) < Key(sortBy, last) {
        assert Sorted(init, sortBy) by {
          assert forall i :: 0 <= i < |init| ==> init[i] == sorted[i];
        }
        InsertSorted(init, x, sortBy);
        var r := Insert(init, x, sortBy);
        assert Key(sortBy, r[|r| - 1]) <= Key(sortBy, last) by {
          if init != [] {
            assert init[|init| - 1] == sorted[|sorted| - 2];
          }
        }
        SortedSnoc(r, last, sortBy);
        assert Insert(sorted, x, sortBy) == r + [last];
      } else {
        SortedSnoc(sorted, x, sortBy);
      }
    }
  }

  /** `s.sort(compare)` for a consistent comparator: a stable insertion sort by key. */
  function Sort(s: seq<Task>, sortBy: string): (r: seq<Task>)
    ensures multiset(r) == multiset(s)
    ensures Sorted(r, sortBy)
  {
    if s == [] then []
    else
      assert s == s[..|s| - 1] + [s[|s| - 1]];
      var sortedInit := Sort(s[..|s| - 1], sortBy);
      InsertSorted(sortedInit, s[|s| - 1], sortBy);
      Insert(sortedInit, s[|s| - 1], sortBy)
  }

  /** The tasks of `s` whose key is `k`, in order. */
  function WithKey(s: seq<Task>, sortBy: string, k: int): seq<Task> {
    Filter(s, (t: Task) => Key(sortBy, t) == k)
  }

  lemma {:induction false} WithKeyConcat(a: seq<Task>, b: seq<Task>, sortBy: string, k: int)
    ensures WithKey(a + b, sortBy, k) == WithKey(a, sortBy, k) + WithKey(b, sortBy, k)
  {
    FilterConcat(a, b, (t: Task) => Key(sortBy, t) == k);
  }

  lemma {:induction false} InsertWithKey(sorted: seq<Task>, x: Task, sortBy: string, k: int)
    ensures WithKey(Insert(sorted, x, sortBy), sortBy, k) == WithKey(sorted, sortBy, k) + WithKey([x], sortBy, k)
  {
    if sorted != [] {
      var init, last := sorted[..|sorted| - 1], sorted[|sorted| - 1];
      assert sorted == init + [last];
      if Key(sortBy, x) < Key(sortBy, last) {
        var r := Insert(init, x, sortBy);
        assert Insert(sorted, x, sortBy) == r + [last];
        assert WithKey([last], sortBy, k) == [] || WithKey([x], sortBy, k) == [];
        calc {
          WithKey(r + [last], sortBy, k);
          { WithKeyConcat(r, [last], sortBy, k); }
          WithKey(r, sortBy, k) + WithKey([last], sortBy, k);
          { InsertWithKey(init, x, sortBy, k); }
          WithKey(init, sortBy, k) + WithKey([x], sortBy, k) + WithKey([last], sortBy, k);
          WithKey(init, sortBy, k) + WithKey([last], sortBy, k) + WithKey([x], sortBy, k);
          { WithKeyConcat(init, [last], sortBy, k); }
          WithKey(sorted, sortBy, k) + WithKey([x], sortBy, k);
        }
      } else {
        WithKeyConcat(sorted, [x], sortBy, k);
      }
    }
  }

  /** Stability: among tasks with equal keys the sort keeps the input order. */
  lemma {:induction false} SortStable(s: seq<Task>, sortBy: string, k: int)
    ensures WithKey(Sort(s, sortBy), sortBy, k) == WithKey(s, sortBy, k)
  {
    if s != [] {
      var init, last := s[..|s| - 1], s[|s| - 1];
      assert s == init + [last];
      SortStable(init, sortBy, k);
      InsertWithKey(Sort(init, sortBy), last, sortBy, k);
      WithKeyConcat(init, [last], sortBy, k);
    }
  }

  /** An unrecognised `sortBy` makes every comparison 0, and the stable sort
      returns its input unchanged. */
  lemma SortUnrecognised(s: seq<Task>, sortBy: string)
    requires sortBy != "dueDate" && sortBy != "priority" && sortBy != "status"
    ensures forall a: Task, b: Task :: Compare(sortBy, a, b) == Some(0)
    ensures Sort(s, sortBy) == s
  {
    var p := (t: Task) => Key(sortBy, t) == 0;
    SortStable(s, sortBy, 0);
    FilterKeepsAll(s, p);
    FilterKeepsAll(Sort(s, sortBy), p);
  }
}
