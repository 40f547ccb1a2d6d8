/**
 * The todo records of the board and the pure list transformations its
 * handlers apply to them: JavaScript's `filter`, `find` and `map` with an
 * object spread, specialised to the ways the handlers use them.
 */
module Todos {
  import opened Wrappers

  /** One todo record, as stored in the list and persisted under `todos`. */
  datatype Todo = Todo(id: int, text: string, tag: string, time: string, completed: bool)

  /** The ids of `todos`, in list order. */
  function Ids(todos: seq<Todo>): (r: seq<int>)
    ensures |r| == |todos|
    ensures forall i :: 0 <= i < |todos| ==> r[i] == todos[i].id
  {
    seq(|todos|, i requires 0 <= i < |todos| => todos[i].id)
  }

  /** Exactly one record per id. */
  predicate UniqueIds(todos: seq<Todo>)
  {
    forall i, j :: 0 <= i < j < |todos| ==> todos[i].id != todos[j].id
  }

  /** `r` is `s` with some records left out and the rest in their original order. */
  predicate IsSubsequence(r: seq<Todo>, s: seq<Todo>)
    decreases |s|
  {
    if r == [] then true
    else if s == [] then false
    else (r[0] == s[0] && IsSubsequence(r[1..], s[1..])) || IsSubsequence(r, s[1..])
  }

  /** How many records of `s` satisfy `keep`. */
  function Count(s: seq<Todo>, keep: Todo -> bool): (n: nat)
    ensures n <= |s|
  {
    if s == [] then 0 else (if keep(s[0]) then 1 else 0) + Count(s[1..], keep)
  }

  // ---------------------------------------------------------------------
  // Array.prototype.filter

  /** `s.filter(keep)`: the records of `s` that satisfy `keep`, in order. */
  function Filter(s: seq<Todo>, keep: Todo -> bool): (r: seq<Todo>)
    ensures |r| <= |s|
    ensures forall t :: t in r <==> t in s && keep(t)
  {
    if s == [] then []
    else if keep(s[0]) then [s[0]] + Filter(s[1..], keep)
    else Filter(s[1..], keep)
  }

  /** The kept records form an order-preserving subsequence of the input. */
  lemma {:induction false} FilterIsSubsequence(s: seq<Todo>, keep: Todo -> bool)
    ensures IsSubsequence(Filter(s, keep), s)
  {
    if s != [] {
      FilterIsSubsequence(s[1..], keep);
      var r := Filter(s, keep);
      if keep(s[0]) {
        assert r[0] == s[0] && r[1..] == Filter(s[1..], keep);
      } else if r != [] {
        assert r == Filter(s[1..], keep);
      }
    }
  }

  /** Filtering keeps exactly as many records as satisfy the predicate. */
  lemma {:induction false} FilterLength(s: seq<Todo>, keep: Todo -> bool)
    ensures |Filter(s, keep)| == Count(s, keep)
  {
    if s != [] {
      FilterLength(s[1..], keep);
    }
  }

  /** When every record is kept, filtering returns the list itself. */
  lemma {:induction false} FilterKeepsAll(s: seq<Todo>, keep: Todo -> bool)
    requires forall i :: 0 <= i < |s| ==> keep(s[i])
    ensures Filter(s, keep) == s
  {
    if s != [] {
      assert keep(s[0]);
      FilterKeepsAll(s[1..], keep);
    }
  }

  /**
   * Filtering by a predicate and by its complement splits the list: the two
   * results hold every record of `s` exactly as often as `s` does.
   */
  lemma {:induction false} FilterPartition(s: seq<Todo>, keep: Todo -> bool, drop: Todo -> bool)
    requires forall t :: drop(t) == !keep(t)
    ensures multiset(Filter(s, keep)) + multiset(Filter(s, drop)) == multiset(s)
    ensures |Filter(s, keep)| + |Filter(s, drop)| == |s|
  {
    if s != [] {
      FilterPartition(s[1..], keep, drop);
      assert s == [s[0]] + s[1..];
    }
  }

  /** A subsequence of a list with unique ids has unique ids. */
  lemma {:induction false} FilterKeepsUniqueIds(s: seq<Todo>, keep: Todo -> bool)
    requires UniqueIds(s)
    ensures UniqueIds(Filter(s, keep))
  {
    if s != [] {
      assert UniqueIds(s[1..]) by {
        forall i, j | 0 <= i < j < |s| - 1 ensures s[1..][i].id != s[1..][j].id {
          assert s[1..][i] == s[i + 1] && s[1..][j] == s[j + 1];
        }
      }
      FilterKeepsUniqueIds(s[1..], keep);
      var rest := Filter(s[1..], keep);
      if keep(s[0]) {
        forall j | 0 < j < |rest| + 1 ensures ([s[0]] + rest)[j].id != s[0].id {
          assert rest[j - 1] in s[1..];
        }
      }
    }
  }

  // ---------------------------------------------------------------------
  // handleDelete: keep the records whose id differs from the deleted one

  /** The callback of `handleDelete`'s filter: keep records whose id is not `id`. */
  function OtherThan(id: int): Todo -> bool
  {
    (t: Todo) => t.id != id
  }

  /** The list without any record whose id is `id`. */
  function Remove(todos: seq<Todo>, id: int): (r: seq<Todo>)
    ensures forall t :: t in r <==> t in todos && t.id != id
  {
    Filter(todos, OtherThan(id))
  }

  /** Removing an id that no record carries leaves the list as it was. */
  lemma RemoveAbsent(todos: seq<Todo>, id: int)
    requires id !in Ids(todos)
    ensures Remove(todos, id) == todos
  {
    FilterKeepsAll(todos, OtherThan(id));
  }

  /** The records left after removal keep their original relative order. */
  lemma RemoveIsSubsequence(todos: seq<Todo>, id: int)
    ensures IsSubsequence(Remove(todos, id), todos)
  {
    FilterIsSubsequence(todos, OtherThan(id));
  }

  /**
   * Removal keeps exactly the records whose id differs, each as often as the
   * list holds it: the list shrinks by the number of records carrying the id.
   */
  lemma RemoveLength(todos: seq<Todo>, id: int)
    ensures |Remove(todos, id)| == Count(todos, OtherThan(id))
    ensures multiset(Remove(todos, id)) + multiset(Filter(todos, (t: Todo) => t.id == id)) == multiset(todos)
  {
    FilterLength(todos, OtherThan(id));
    FilterPartition(todos, OtherThan(id), (t: Todo) => t.id == id);
  }

  /** With unique ids, removing a present id shortens the list by exactly one. */
  lemma {:induction false} RemovePresent(todos: seq<Todo>, id: int)
    requires UniqueIds(todos) && id in Ids(todos)
    ensures |Remove(todos, id)| == |todos| - 1
  {
    var rest := todos[1..];
    assert UniqueIds(rest) by {
      forall i, j | 0 <= i < j < |rest| ensures rest[i].id != rest[j].id {
        assert rest[i] == todos[i + 1] && rest[j] == todos[j + 1];
      }
    }
    if todos[0].id == id {
      assert id !in Ids(rest) by {
        forall k | 0 <= k < |rest| ensures rest[k].id != id {
          assert rest[k] == todos[k + 1];
        }
      }
      RemoveAbsent(rest, id);
      assert Remove(todos, id) == Remove(rest, id);
    } else {
      var k :| 0 <= k < |todos| && Ids(todos)[k] == id;
      assert Ids(rest)[k - 1] == id;
      RemovePresent(rest, id);
      assert Remove(todos, id) == [todos[0]] + Remove(rest, id);
    }
  }

  /** Removal preserves uniqueness of ids. */
  lemma RemoveKeepsUniqueIds(todos: seq<Todo>, id: int)
    requires UniqueIds(todos)
    ensures UniqueIds(Remove(todos, id))
  {
    FilterKeepsUniqueIds(todos, OtherThan(id));
  }

  // ---------------------------------------------------------------------
  // handleEdit: look up the first record carrying the id

  /** The first record whose id is `id`, or `None` (JavaScript's `undefined`). */
  function Find(todos: seq<Todo>, id: int): (r: Option<Todo>)
    ensures r.None? <==> id !in Ids(todos)
    ensures r.Some? ==> r.value in todos && r.value.id == id
  {
    if todos == [] then None
    else if todos[0].id == id then Some(todos[0])
    else Find(todos[1..], id)
  }

  /** `find` returns the record at the first index that carries the id. */
  lemma {:induction false} FindFirst(todos: seq<Todo>, k: nat)
    requires k < |todos|
    requires forall j :: 0 <= j < k ==> todos[j].id != todos[k].id
    ensures Find(todos, todos[k].id) == Some(todos[k])
  {
    if k > 0 {
      FindFirst(todos[1..], k - 1);
    }
  }

  /** With unique ids, `find` returns the one record carrying the id. */
  lemma FindUnique(todos: seq<Todo>, k: nat)
    requires UniqueIds(todos) && k < |todos|
    ensures Find(todos, todos[k].id) == Some(todos[k])
  {
  }

  // ---------------------------------------------------------------------
  // toggleComplete: flip the completion flag on the records carrying the id

  /**
   * The list with `completed` flipped on every record whose id is `id`;
   * order, ids, texts, tags and times are kept.
   */
  function Toggle(todos: seq<Todo>, id: int): (r: seq<Todo>)
    ensures |r| == |todos| && Ids(r) == Ids(todos)
    ensures forall i :: 0 <= i < |todos| ==>
              && r[i].text == todos[i].text && r[i].tag == todos[i].tag && r[i].time == todos[i].time
              && r[i].completed == (todos[i].completed != (todos[i].id == id))
  {
    seq(|todos|, i requires 0 <= i < |todos| =>
      if todos[i].id == id then todos[i].(completed := !todos[i].completed) else todos[i])
  }

  /** Toggling the same id twice restores the list. */
  lemma ToggleTwice(todos: seq<Todo>, id: int)
    ensures Toggle(Toggle(todos, id), id) == todos
  {
  }

  /** Toggling an id that no record carries changes nothing. */
  lemma ToggleAbsent(todos: seq<Todo>, id: int)
    requires id !in Ids(todos)
    ensures Toggle(todos, id) == todos
  {
  }

  // ---------------------------------------------------------------------
  // handleUpdate: replace text and tag on the editing target

  /** `todo.id === editingId`: a null editing id matches no record. */
  predicate IsTarget(editingId: Option<int>, t: Todo)
  {
    editingId == Some(t.id)
  }

  /**
   * The list with `text` and `tag` replaced on every record that is the
   * editing target; order, ids, times and completion flags are kept, and
   * every other record is left as it was.
   */
  function Rewrite(todos: seq<Todo>, editingId: Option<int>, text: string, tag: string): (r: seq<Todo>)
    ensures |r| == |todos| && Ids(r) == Ids(todos)
    ensures forall i :: 0 <= i < |todos| ==>
              && r[i].time == todos[i].time && r[i].completed == todos[i].completed
              && (IsTarget(editingId, todos[i]) ==> r[i].text == text && r[i].tag == tag)
              && (!IsTarget(editingId, todos[i]) ==> r[i] == todos[i])
  {
    seq(|todos|, i requires 0 <= i < |todos| =>
      if IsTarget(editingId, todos[i]) then todos[i].(text := text, tag := tag) else todos[i])
  }

  /** With no editing target the list is unchanged. */
  lemma RewriteWithoutTarget(todos: seq<Todo>, text: string, tag: string)
    ensures Rewrite(todos, None, text, tag) == todos
  {
  }

  /**
   * Editing a record and committing the drafts it loaded, unchanged, gives
   * back the list as it was, when ids are unique.
   */
  lemma EditThenUpdate(todos: seq<Todo>, id: int)
    requires UniqueIds(todos) && id in Ids(todos)
    ensures Find(todos, id).Some?
    ensures var t := Find(todos, id).value; Rewrite(todos, Some(id), t.text, t.tag) == todos
  {
  }

  /** Toggling and rewriting keep every id in place, so they keep ids unique. */
  lemma SameIdsKeepUniqueIds(before: seq<Todo>, after: seq<Todo>)
    requires UniqueIds(before) && Ids(after) == Ids(before)
    ensures UniqueIds(after)
  {
  }

  /** Prepending a record with a fresh id keeps ids unique. */
  lemma PrependKeepsUniqueIds(todos: seq<Todo>, t: Todo)
    requires UniqueIds(todos) && t.id !in Ids(todos)
    ensures UniqueIds([t] + todos)
  {
  }

  // ---------------------------------------------------------------------
  // filteredTodos: the records shown under the active filter

  /**
   * The callback of the projection: `completed` shows completed records,
   * `incomplete` shows the others, and any other filter shows everything.
   */
  function Shows(filter: string): Todo -> bool
  {
    (t: Todo) => if filter == "completed" then t.completed
                 else if filter == "incomplete" then !t.completed
                 else true
  }

  /** The records displayed under `filter`, in list order. */
  function Visible(todos: seq<Todo>, filter: string): (r: seq<Todo>)
    ensures IsSubsequence(r, todos)
    ensures filter == "completed" ==> forall t :: t in r <==> t in todos && t.completed
    ensures filter == "incomplete" ==> forall t :: t in r <==> t in todos && !t.completed
    ensures filter != "completed" && filter != "incomplete" ==> r == todos
  {
    var r := Filter(todos, Shows(filter));
    FilterIsSubsequence(todos, Shows(filter));
    if filter == "completed" || filter == "incomplete" then r
    else FilterKeepsAll(todos, Shows(filter)); r
  }

  /**
   * The `completed` and `incomplete` views split the list: together they
   * hold every record exactly once, so their lengths sum to its length.
   */
  lemma VisiblePartition(todos: seq<Todo>)
    ensures multiset(Visible(todos, "completed")) + multiset(Visible(todos, "incomplete")) == multiset(todos)
    ensures |Visible(todos, "completed")| + |Visible(todos, "incomplete")| == |todos|
  {
    FilterPartition(todos, Shows("completed"), Shows("incomplete"));
  }
}
