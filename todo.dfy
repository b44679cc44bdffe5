/** The in-memory to-do list of the first backend: a module-level list of items that the
    handlers append to, update in place, and remove from. */
module TodoApi {
  import opened Http
  import opened Seqs

  datatype TodoItem = TodoItem(id: string, task: string, completed: bool)

  function Ids(todos: seq<TodoItem>): (ids: seq<string>)
    ensures |ids| == |todos|
    ensures forall i :: 0 <= i < |todos| ==> ids[i] == todos[i].id
  {
    seq(|todos|, i requires 0 <= i < |todos| => todos[i].id)
  }

  /** Identifiers come from uuid4, so no two items share one. */
  ghost predicate UniqueIds(todos: seq<TodoItem>) {
    forall i, j :: 0 <= i < j < |todos| ==> todos[i].id != todos[j].id
  }

  predicate Incomplete(t: TodoItem) {
    !t.completed
  }

  /** The list after toggle_todo: the first item with the id has its flag flipped. */
  function Toggled(todos: seq<TodoItem>, id: string): (r: seq<TodoItem>)
    ensures |r| == |todos| && Ids(r) == Ids(todos)
    ensures id !in Ids(todos) ==> r == todos
  {
    match IndexOf(Ids(todos), id)
    case None => todos
    case Some(i) => todos[i := todos[i].(completed := !todos[i].completed)]
  }

  /** The list after update_todo: the first item with the id gets the new task. */
  function Renamed(todos: seq<TodoItem>, id: string, task: string): (r: seq<TodoItem>)
    ensures |r| == |todos| && Ids(r) == Ids(todos)
    ensures id !in Ids(todos) ==> r == todos
  {
    match IndexOf(Ids(todos), id)
    case None => todos
    case Some(i) => todos[i := todos[i].(task := task)]
  }

  /** The list after delete_todo: the first item with the id is gone. */
  function Deleted(todos: seq<TodoItem>, id: string): (r: seq<TodoItem>)
    ensures multiset(r) <= multiset(todos)
    ensures id !in Ids(todos) ==> r == todos
  {
    match IndexOf(Ids(todos), id)
    case None => todos
    case Some(i) => RemoveAt(todos, i)
  }

  /** The list after delete_completed_todos. */
  function WithoutCompleted(todos: seq<TodoItem>): (r: seq<TodoItem>)
    ensures forall i :: 0 <= i < |r| ==> !r[i].completed && r[i] in todos
  {
    Filter(todos, Incomplete)
  }

  /** Toggling changes the flag of exactly the first item with the id, and nothing else. */
  lemma ToggledChangesOneFlag(todos: seq<TodoItem>, id: string)
    ensures |Toggled(todos, id)| == |todos| && Ids(Toggled(todos, id)) == Ids(todos)
    ensures forall j :: 0 <= j < |todos| ==>
      && Toggled(todos, id)[j].task == todos[j].task
      && (Toggled(todos, id)[j].completed != todos[j].completed <==> IndexOf(Ids(todos), id) == Some(j))
  {
  }

  /** Toggling twice restores the list. */
  lemma ToggleTwice(todos: seq<TodoItem>, id: string)
    ensures Toggled(Toggled(todos, id), id) == todos
  {
    ToggledChangesOneFlag(todos, id);
  }

  /** Renaming replaces the task of exactly the first item with the id and keeps every flag. */
  lemma RenamedChangesOneTask(todos: seq<TodoItem>, id: string, task: string)
    ensures |Renamed(todos, id, task)| == |todos| && Ids(Renamed(todos, id, task)) == Ids(todos)
    ensures forall j :: 0 <= j < |todos| ==>
      && Renamed(todos, id, task)[j].completed == todos[j].completed
      && Renamed(todos, id, task)[j].task == (if IndexOf(Ids(todos), id) == Some(j) then task else todos[j].task)
  {
  }

  /** Deleting removes one item when the id is present, keeping the others in order. */
  lemma DeletedRemovesOne(todos: seq<TodoItem>, id: string)
    ensures id in Ids(todos) ==> |Deleted(todos, id)| == |todos| - 1
    ensures id !in Ids(todos) ==> Deleted(todos, id) == todos
    ensures IsSubsequence(Deleted(todos, id), todos)
  {
    match IndexOf(Ids(todos), id)
    case None =>
      SubsequenceOfItself(todos);
    case Some(i) =>
      RemoveAtIsSubsequence(todos, i);
  }

  /** With unique identifiers, a deleted id is gone, so deleting it again finds nothing. */
  lemma DeleteTwice(todos: seq<TodoItem>, id: string)
    requires UniqueIds(todos)
    ensures UniqueIds(Deleted(todos, id))
    ensures id !in Ids(Deleted(todos, id))
    ensures Deleted(Deleted(todos, id), id) == Deleted(todos, id)
  {
    match IndexOf(Ids(todos), id)
    case None =>
    case Some(i) =>
      var r := RemoveAt(todos, i);
      assert forall j :: 0 <= j < |r| ==> r[j] == (if j < i then todos[j] else todos[j + 1]);
  }

  /** Clearing the completed items keeps exactly the incomplete ones, in order, and doing it
      again changes nothing. */
  lemma WithoutCompletedKeepsIncomplete(todos: seq<TodoItem>)
    ensures forall t :: t in WithoutCompleted(todos) <==> t in todos && !t.completed
    ensures IsSubsequence(WithoutCompleted(todos), todos)
    ensures WithoutCompleted(WithoutCompleted(todos)) == WithoutCompleted(todos)
  {
    FilterIdempotent(todos, Incomplete);
    var r := WithoutCompleted(todos);
    forall t | t in r ensures t in todos && !t.completed {
      var j :| 0 <= j < |r| && r[j] == t;
    }
    forall t | t in todos && !t.completed ensures t in r {
      var j :| 0 <= j < |todos| && todos[j] == t;
    }
  }

  /** The module-level `fake_todo_db` list. */
  class TodoList {
    var todos: seq<TodoItem>

    ghost predicate Valid()
      reads this
    {
      UniqueIds(todos)
    }

    constructor ()
      ensures Valid() && todos == []
    {
      todos := [];
    }

    /** get_all_todos: the store as it stands. */
    method GetAll() returns (r: seq<TodoItem>)
      ensures r == todos
    {
      r := todos;
    }

    /** create_todo, with the fresh uuid4 supplied as `id`. */
    method Create(id: string, task: string) returns (r: TodoItem)
      requires Valid()
      requires id !in Ids(todos)
      modifies this
      ensures Valid()
      ensures r == TodoItem(id, task, false)
      ensures todos == old(todos) + [r]
    {
      r := TodoItem(id, task, false);
      todos := todos + [r];
    }

    /** toggle_todo: flips the first item with the id and returns it. */
    method Toggle(id: string) returns (r: Result<TodoItem>)
      requires Valid()
      modifies this
      ensures Valid()
      ensures todos == Toggled(old(todos), id)
      ensures r.Err? <==> id !in Ids(old(todos))
      ensures r.Err? ==> r.status == NotFound
      ensures r.Ok? ==> r.value == todos[IndexOf(Ids(old(todos)), id).value]
    {
      var i := 0;
      while i < |todos|
        invariant 0 <= i <= |todos| && todos == old(todos)
        invariant forall j :: 0 <= j < i ==> todos[j].id != id
      {
        if todos[i].id == id {
          todos := todos[i := todos[i].(completed := !todos[i].completed)];
          ToggledChangesOneFlag(old(todos), id);
          return Ok(todos[i]);
        }
        i := i + 1;
      }
      return Err(NotFound);
    }

    /** update_todo: replaces the task of the first item with the id and returns it. */
    method Update(id: string, task: string) returns (r: Result<TodoItem>)
      requires Valid()
      modifies this
      ensures Valid()
      ensures todos == Renamed(old(todos), id, task)
      ensures r.Err? <==> id !in Ids(old(todos))
      ensures r.Err? ==> r.status == NotFound
      ensures r.Ok? ==> r.value == todos[IndexOf(Ids(old(todos)), id).value]
    {
      var i := 0;
      while i < |todos|
        invariant 0 <= i <= |todos| && todos == old(todos)
        invariant forall j :: 0 <= j < i ==> todos[j].id != id
      {
        if todos[i].id == id {
          todos := todos[i := todos[i].(task := task)];
          RenamedChangesOneTask(old(todos), id, task);
          return Ok(todos[i]);
        }
        i := i + 1;
      }
      return Err(NotFound);
    }

    /** delete_todo: `list.remove` drops the first element equal to the match, which is the
        match itself, since every earlier item has another id. */
    method Delete(id: string) returns (r: Result<()>)
      requires Valid()
      modifies this
      ensures Valid()
      ensures todos == Deleted(old(todos), id)
      ensures r.Err? <==> id !in Ids(old(todos))
      ensures r.Err? ==> r.status == NotFound
    {
      var i := 0;
      while i < |todos|
        invariant 0 <= i <= |todos| && todos == old(todos)
        invariant forall j :: 0 <= j < i ==> todos[j].id != id
      {
        if todos[i].id == id {
          assert Ids(todos)[i] == id;
          assert IndexOf(Ids(todos), id) == Some(i);
          DeleteTwice(todos, id);
          todos := RemoveAt(todos, i);
          return Ok(());
        }
        i := i + 1;
      }
      return Err(NotFound);
    }

    /** delete_completed_todos: keeps the incomplete items. */
    method DeleteCompleted()
      requires Valid()
      modifies this
      ensures Valid()
      ensures todos == WithoutCompleted(old(todos))
    {
      var kept := WithoutCompleted(todos);
      UniqueAfterFilter(todos, Incomplete);
      todos := kept;
    }
  }

  /** Dropping items keeps identifiers unique. */
  lemma {:induction false} UniqueAfterFilter(s: seq<TodoItem>, p: TodoItem -> bool)
    requires UniqueIds(s)
    ensures UniqueIds(Filter(s, p))
  {
    if s != [] {
      assert UniqueIds(s[1..]);
      UniqueAfterFilter(s[1..], p);
      var rest := Filter(s[1..], p);
      forall j | 0 <= j < |rest| ensures rest[j].id != s[0].id {
        assert rest[j] in s[1..];
      }
    }
  }
}
