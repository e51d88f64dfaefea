/**
 * The list operations the commands perform on the loaded `List<Todo>`:
 * `FirstOrDefault` by id, `Max` of the ids, `Remove`, the `Where` status
 * filter, and the facts about ids and order that the commands rely on.
 */
module TodoLists {
  import opened Wrappers
  import opened DotNet
  import opened Models

  /** No two tasks share an id. */
  ghost predicate UniqueIds(todos: seq<Todo>) {
    forall i, j :: 0 <= i < j < |todos| ==> todos[i].id != todos[j].id
  }

  /** Position by position, the two lists hold tasks with the same ids. */
  ghost predicate SameIds(a: seq<Todo>, b: seq<Todo>) {
    |a| == |b| && forall j :: 0 <= j < |a| ==> a[j].id == b[j].id
  }

  /** `todos.FirstOrDefault(t => t.Id == id)`, as the position of the todo it finds. */
  function FirstIndex(todos: seq<Todo>, id: Int32): (r: Option<nat>)
    ensures r.Some? ==> r.value < |todos| && todos[r.value].id == id
    ensures r.Some? ==> forall j :: 0 <= j < r.value ==> todos[j].id != id
    ensures r.None? ==> forall j :: 0 <= j < |todos| ==> todos[j].id != id
    decreases |todos|
  {
    if todos == [] then None
    else if todos[0].id == id then Some(0)
    else match FirstIndex(todos[1..], id)
      case None => None
      case Some(k) => Some(k + 1)
  }

  /** `todos.Max(t => t.Id)` */
  function MaxId(todos: seq<Todo>): (m: Int32)
    requires todos != []
    ensures exists i :: 0 <= i < |todos| && todos[i].id == m
    ensures forall i :: 0 <= i < |todos| ==> todos[i].id <= m
    decreases |todos|
  {
    if |todos| == 1 then todos[0].id
    else
      var rest := MaxId(todos[1..]);
      if todos[0].id >= rest then todos[0].id else rest
  }

  /**
   * The id `AddTodoAsync` gives a new task: `Max + 1` in unchecked 32-bit
   * arithmetic for a non-empty list, 1 for an empty one. Below the top of the
   * Int32 range it exceeds every id in the list; at the top it wraps around.
   */
  function NextId(todos: seq<Todo>): (r: Int32)
    ensures todos == [] ==> r == 1
    ensures todos != [] && MaxId(todos) < MaxInt32 ==>
              forall i :: 0 <= i < |todos| ==> todos[i].id < r
    ensures (exists i :: 0 <= i < |todos| && todos[i].id == MaxInt32) ==> r == MinInt32
  {
    if todos != [] then Increment(MaxId(todos)) else 1
  }

  /** Appending a task with the next id keeps the ids unique, and the new task is the one found by its id. */
  lemma AppendNextKeepsUnique(todos: seq<Todo>, t: Todo)
    requires UniqueIds(todos)
    requires todos == [] || MaxId(todos) < MaxInt32
    requires t.id == NextId(todos)
    ensures UniqueIds(todos + [t])
    ensures FirstIndex(todos + [t], t.id) == Some(|todos|)
  {
    var r := todos + [t];
    forall i | 0 <= i < |todos| ensures todos[i].id < t.id {
      if todos != [] {
        assert todos[i].id <= MaxId(todos);
      }
    }
    forall i, j | 0 <= i < j < |r| ensures r[i].id != r[j].id {
      assert r[i] == todos[i];
      if j < |todos| {
        assert r[j] == todos[j];
      }
    }
    assert r[|todos|].id == t.id;
    var found := FirstIndex(r, t.id);
    assert found.Some?;
  }

  /**
   * At the top of the Int32 range the next id wraps to `int.MinValue`: a list
   * that already holds both ends of the range gets a duplicate id.
   */
  lemma NextIdCanCollide(todos: seq<Todo>, t: Todo)
    requires exists i :: 0 <= i < |todos| && todos[i].id == MinInt32
    requires exists i :: 0 <= i < |todos| && todos[i].id == MaxInt32
    requires t.id == NextId(todos)
    ensures !UniqueIds(todos + [t])
  {
    var i :| 0 <= i < |todos| && todos[i].id == MinInt32;
    var r := todos + [t];
    assert r[i] == todos[i] && r[|todos|] == t;
  }

  /** `todos` with its `i`-th task removed. */
  function RemoveAt(todos: seq<Todo>, i: nat): (r: seq<Todo>)
    requires i < |todos|
    ensures |r| == |todos| - 1
    ensures forall k :: 0 <= k < |r| ==> r[k] == todos[if k < i then k else k + 1]
  {
    todos[..i] + todos[i + 1..]
  }

  /**
   * `todos.Remove(x)` (`List<T>.Remove`): drops the first element equal to `x`
   * and reports whether there was one.
   */
  function RemoveFirst(todos: seq<Todo>, x: Todo): (r: Option<seq<Todo>>)
    ensures r.None? <==> x !in todos
    ensures r.Some? ==> |r.value| == |todos| - 1
    ensures r.Some? ==> exists i :: 0 <= i < |todos| && todos[i] == x && x !in todos[..i] && r.value == RemoveAt(todos, i)
  {
    if todos == [] then None
    else if todos[0] == x then
      assert todos[..0] == [] && RemoveAt(todos, 0) == todos[1..];
      Some(todos[1..])
    else match RemoveFirst(todos[1..], x)
      case None => None
      case Some(rest) =>
        var j :| 0 <= j < |todos| - 1 && todos[1..][j] == x && x !in todos[1..][..j] && rest == RemoveAt(todos[1..], j);
        RemoveAtBehindHead(todos, j, x);
        Some([todos[0]] + rest)
  }

  /** The first `x` behind a head that differs from it is the first `x` of the whole list; removing it keeps the head in front. */
  lemma RemoveAtBehindHead(todos: seq<Todo>, j: nat, x: Todo)
    requires j + 1 < |todos| && todos[0] != x
    requires todos[1..][j] == x && x !in todos[1..][..j]
    ensures todos[j + 1] == x && x !in todos[..j + 1]
    ensures [todos[0]] + RemoveAt(todos[1..], j) == RemoveAt(todos, j + 1)
  {
    assert todos[..j + 1] == [todos[0]] + todos[1..][..j];
    assert todos[j + 2..] == todos[1..][j + 1..];
  }

  /**
   * Removing the todo that `FirstOrDefault` found removes exactly that
   * position: no earlier task is equal to it, since none has its id. So
   * `Remove` cannot fail on it.
   */
  lemma RemoveFoundTask(todos: seq<Todo>, id: Int32, i: nat)
    requires FirstIndex(todos, id) == Some(i)
    ensures RemoveFirst(todos, todos[i]) == Some(RemoveAt(todos, i))
  {
    var x := todos[i];
    assert x in todos;
    var r := RemoveFirst(todos, x);
    var k :| 0 <= k < |todos| && todos[k] == x && x !in todos[..k] && r.value == RemoveAt(todos, k);
    assert todos[k].id == id;
    assert k == i;
  }

  /**
   * Removing a task keeps the other ids unique, and its id no longer occurs.
   */
  lemma RemoveAtKeepsUnique(todos: seq<Todo>, i: nat)
    requires UniqueIds(todos) && i < |todos|
    ensures UniqueIds(RemoveAt(todos, i))
    ensures FirstIndex(RemoveAt(todos, i), todos[i].id) == None
  {
  }

  /**
   * Ids are reused: when the todo with the largest id is deleted and the
   * id just below it is still taken, the next task added gets the deleted id
   * again.
   */
  lemma DeleteMaxThenAddReusesId(todos: seq<Todo>, i: nat, j: nat)
    requires UniqueIds(todos)
    requires i < |todos| && j < |todos| && i != j
    requires todos[i].id == MaxId(todos) && todos[j].id == todos[i].id - 1
    ensures NextId(RemoveAt(todos, i)) == todos[i].id
  {
    var r := RemoveAt(todos, i);
    RemovedMaxIsAbove(todos, i);
    var k := if j < i then j else j - 1;
    assert r[k] == todos[j];
    MaxIdIs(r, k);
  }

  /** With unique ids, the removed task's id exceeds every id left when it was the largest. */
  lemma RemovedMaxIsAbove(todos: seq<Todo>, i: nat)
    requires UniqueIds(todos)
    requires i < |todos| && todos[i].id == MaxId(todos)
    ensures forall k :: 0 <= k < |todos| - 1 ==> RemoveAt(todos, i)[k].id < todos[i].id
  {
    var r := RemoveAt(todos, i);
    forall k | 0 <= k < |r| ensures r[k].id < todos[i].id {
      var k' := if k < i then k else k + 1;
      assert r[k] == todos[k'];
      if k' < i {
        assert todos[k'].id != todos[i].id;
      } else {
        assert todos[i].id != todos[k'].id;
      }
    }
  }

  /** A list's largest id is that of a task no other task exceeds. */
  lemma MaxIdIs(todos: seq<Todo>, k: nat)
    requires k < |todos|
    requires forall j :: 0 <= j < |todos| ==> todos[j].id <= todos[k].id
    ensures MaxId(todos) == todos[k].id
  {
    assert todos[k].id <= MaxId(todos);
  }

  /** Tasks that keep their ids, position by position, are found at the same position. */
  lemma {:induction false} FirstIndexFollowsIds(a: seq<Todo>, b: seq<Todo>, id: Int32)
    requires SameIds(a, b)
    ensures FirstIndex(a, id) == FirstIndex(b, id)
    decreases |a|
  {
    if a != [] && a[0].id != id {
      FirstIndexFollowsIds(a[1..], b[1..], id);
    }
  }

  /** Changing fields other than the id keeps the ids unique. */
  lemma SameIdsKeepUnique(a: seq<Todo>, b: seq<Todo>)
    requires SameIds(a, b) && UniqueIds(a)
    ensures UniqueIds(b)
  {
  }

  /** The todo at `i` with a new description and `UpdatedAt`; every other task, and its other fields, stay. */
  ghost predicate DescriptionChanged(before: seq<Todo>, after: seq<Todo>, i: nat, description: string, now: DateTime) {
    && i < |before| == |after|
    && (forall j :: 0 <= j < |before| && j != i ==> after[j] == before[j])
    && after[i].id == before[i].id && after[i].status == before[i].status
    && after[i].createdAt == before[i].createdAt
    && after[i].description == Some(description) && after[i].updatedAt == now
  }

  function DescribedAt(todos: seq<Todo>, i: nat, description: string, now: DateTime): (r: seq<Todo>)
    requires i < |todos|
    ensures DescriptionChanged(todos, r, i, description, now)
    ensures SameIds(todos, r)
  {
    todos[i := todos[i].(description := Some(description), updatedAt := now)]
  }

  /** The todo at `i` with a new status and `UpdatedAt`; every other task, and its other fields, stay. */
  ghost predicate StatusChanged(before: seq<Todo>, after: seq<Todo>, i: nat, status: string, now: DateTime) {
    && i < |before| == |after|
    && (forall j :: 0 <= j < |before| && j != i ==> after[j] == before[j])
    && after[i].id == before[i].id && after[i].description == before[i].description
    && after[i].createdAt == before[i].createdAt
    && after[i].status == Some(status) && after[i].updatedAt == now
  }

  function MarkedAt(todos: seq<Todo>, i: nat, status: string, now: DateTime): (r: seq<Todo>)
    requires i < |todos|
    ensures StatusChanged(todos, r, i, status, now)
    ensures SameIds(todos, r)
  {
    todos[i := todos[i].(status := Some(status), updatedAt := now)]
  }

  /**
   * Setting the same status twice on the todo found by `id` finds the same
   * task the second time and leaves what one call at the later time leaves:
   * only `UpdatedAt` tells the two apart.
   */
  lemma MarkTwice(todos: seq<Todo>, id: Int32, status: string, first: DateTime, second: DateTime)
    requires FirstIndex(todos, id).Some?
    ensures var i := FirstIndex(todos, id).value;
            var once := MarkedAt(todos, i, status, first);
            FirstIndex(once, id) == Some(i) &&
            MarkedAt(once, i, status, second) == MarkedAt(todos, i, status, second) &&
            once[i] == MarkedAt(todos, i, status, second)[i].(updatedAt := first)
  {
    var i := FirstIndex(todos, id).value;
    FirstIndexFollowsIds(todos, MarkedAt(todos, i, status, first), id);
  }

  /** `todos.Where(t => t.Status == status)` for a non-null `status`. */
  function WithStatus(todos: seq<Todo>, status: string): (r: seq<Todo>)
    ensures |r| <= |todos|
    ensures forall k :: 0 <= k < |r| ==> r[k] in todos && r[k].status == Some(status)
  {
    if todos == [] then []
    else if todos[0].status == Some(status) then [todos[0]] + WithStatus(todos[1..], status)
    else WithStatus(todos[1..], status)
  }

  /** `a` is `b` with some elements left out, the rest in their order. */
  predicate IsSubsequence(a: seq<Todo>, b: seq<Todo>)
    decreases |b|
  {
    a == [] || (b != [] && ((a[0] == b[0] && IsSubsequence(a[1..], b[1..])) || IsSubsequence(a, b[1..])))
  }

  /** The filter keeps exactly the todos with that status. */
  lemma {:induction false} WithStatusMembers(todos: seq<Todo>, status: string, t: Todo)
    ensures t in WithStatus(todos, status) <==> t in todos && t.status == Some(status)
  {
    if todos != [] {
      WithStatusMembers(todos[1..], status, t);
      assert todos == [todos[0]] + todos[1..];
    }
  }

  /** The filter keeps the order of the todos it keeps. */
  lemma {:induction false} WithStatusIsSubsequence(todos: seq<Todo>, status: string)
    ensures IsSubsequence(WithStatus(todos, status), todos)
  {
    if todos != [] {
      WithStatusIsSubsequence(todos[1..], status);
      var r := WithStatus(todos, status);
      if todos[0].status == Some(status) {
        assert r[0] == todos[0] && r[1..] == WithStatus(todos[1..], status);
      }
    }
  }

  /** Filtering a concatenation filters each part: every kept task stays in its place relative to the rest. */
  lemma {:induction false} WithStatusConcat(a: seq<Todo>, b: seq<Todo>, status: string)
    ensures WithStatus(a + b, status) == WithStatus(a, status) + WithStatus(b, status)
  {
    if a == [] {
      assert a + b == b;
    } else {
      assert (a + b)[0] == a[0] && (a + b)[1..] == a[1..] + b;
      WithStatusConcat(a[1..], b, status);
    }
  }
}
