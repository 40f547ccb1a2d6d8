/**
 * The state of the `App` component and its five handlers. Each handler is
 * one atomic transition: the setters it calls take effect together. The
 * values the browser supplies (the clock, the locale-formatted time and the
 * answer to the delete confirmation) are parameters.
 */
module TodoApp {
  import opened Wrappers
  import opened Text
  import opened Todos

  class App {
    var todos: seq<Todo>
    /** The text draft. */
    var input: string
    /** The tag draft. */
    var tag: string
    /** The record being edited, or `None` (`null`). */
    var editingId: Option<int>
    var filter: string

    /**
     * Initial state: the list read back from storage (`None` when nothing
     * is stored), empty drafts, no editing target, filter `all`.
     */
    constructor (stored: Option<seq<Todo>>)
      ensures todos == (if stored.Some? then stored.value else [])
      ensures input == "" && tag == "" && editingId == None && filter == "all"
    {
      todos := if stored.Some? then stored.value else [];
      input, tag := "", "";
      editingId := None;
      filter := "all";
    }

    /**
     * `handleAdd`: a blank draft changes nothing; otherwise a record built
     * from the untrimmed draft, the tag draft, the given clock values and
     * `completed == false` goes in front of the list, and the drafts are
     * cleared.
     */
    method Add(id: int, time: string)
      modifies this
      ensures Blank(old(input)) ==> unchanged(this)
      ensures !Blank(old(input)) ==>
                && todos == [Todo(id, old(input), old(tag), time, false)] + old(todos)
                && input == "" && tag == ""
                && editingId == old(editingId) && filter == old(filter)
      ensures UniqueIds(old(todos)) && id !in Ids(old(todos)) ==> UniqueIds(todos)
    {
      TrimEmptyIffBlank(input);
      if Trim(input) == [] {
        return;
      }
      var newTodo := Todo(id, input, tag, time, false);
      if UniqueIds(todos) && id !in Ids(todos) {
        PrependKeepsUniqueIds(todos, newTodo);
      }
      todos := [newTodo] + todos;
      input := "";
      tag := "";
    }

    /**
     * `handleDelete`: when the user confirms, every record with that id
     * goes and the others stay in order; otherwise nothing changes.
     */
    method Delete(id: int, confirmed: bool)
      modifies this
      ensures todos == (if confirmed then Remove(old(todos), id) else old(todos))
      ensures input == old(input) && tag == old(tag)
      ensures editingId == old(editingId) && filter == old(filter)
      ensures UniqueIds(old(todos)) ==> UniqueIds(todos)
    {
      if confirmed {
        if UniqueIds(todos) {
          RemoveKeepsUniqueIds(todos, id);
        }
        todos := Remove(todos, id);
      }
    }

    /**
     * `handleEdit`: loads the first record with that id into the drafts
     * and makes it the editing target. The record must exist: reading
     * `text` off an undefined `find` result throws.
     */
    method Edit(id: int)
      requires id in Ids(todos)
      modifies this
      ensures Find(todos, id).Some?
      ensures input == Find(todos, id).value.text && tag == Find(todos, id).value.tag
      ensures Find(todos, id).value in todos && Find(todos, id).value.id == id
      ensures editingId == Some(id)
      ensures todos == old(todos) && filter == old(filter)
    {
      var todo := Find(todos, id).value;
      input := todo.text;
      tag := todo.tag;
      editingId := Some(id);
    }

    /**
     * `handleUpdate`: the drafts replace text and tag of the editing target
     * (nothing matches when there is none; an empty draft is accepted), then
     * drafts and target are cleared.
     */
    method Update()
      modifies this
      ensures todos == Rewrite(old(todos), old(editingId), old(input), old(tag))
      ensures input == "" && tag == "" && editingId == None
      ensures filter == old(filter)
      ensures UniqueIds(old(todos)) ==> UniqueIds(todos)
    {
      if UniqueIds(todos) {
        SameIdsKeepUniqueIds(todos, Rewrite(todos, editingId, input, tag));
      }
      todos := Rewrite(todos, editingId, input, tag);
      input := "";
      tag := "";
      editingId := None;
    }

    /** `toggleComplete`: flips `completed` on the records with that id. */
    method ToggleComplete(id: int)
      modifies this
      ensures todos == Toggle(old(todos), id)
      ensures input == old(input) && tag == old(tag)
      ensures editingId == old(editingId) && filter == old(filter)
      ensures UniqueIds(old(todos)) ==> UniqueIds(todos)
    {
      if UniqueIds(todos) {
        SameIdsKeepUniqueIds(todos, Toggle(todos, id));
      }
      todos := Toggle(todos, id);
    }

    /** The text field's `onChange`: the draft becomes what was typed. */
    method SetInput(value: string)
      modifies this`input
      ensures input == value
    {
      input := value;
    }

    /** The tag field's `onChange`. */
    method SetTag(value: string)
      modifies this`tag
      ensures tag == value
    {
      tag := value;
    }

    /** The filter buttons. */
    method SetFilter(value: string)
      modifies this`filter
      ensures filter == value
    {
      filter := value;
    }

    /** `filteredTodos`: the records displayed, in list order. */
    function FilteredTodos(): (r: seq<Todo>)
      reads this
      ensures IsSubsequence(r, todos)
      ensures filter == "completed" ==> forall t :: t in r <==> t in todos && t.completed
      ensures filter == "incomplete" ==> forall t :: t in r <==> t in todos && !t.completed
      ensures filter != "completed" && filter != "incomplete" ==> r == todos
    {
      Visible(todos, filter)
    }
  }

  /**
   * Pressing Config on a record and then Config again without touching the
   * drafts leaves the list as it was, provided ids are unique.
   */
  method EditThenUpdateRestores(app: App, id: int)
    requires UniqueIds(app.todos) && id in Ids(app.todos)
    modifies app
    ensures app.todos == old(app.todos)
    ensures app.input == "" && app.tag == "" && app.editingId == None
  {
    app.Edit(id);
    app.Update();
    EditThenUpdate(old(app.todos), id);
  }
}
