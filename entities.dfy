/** The two record kinds kept by the store, notes and todo items, and the
    operations that create one record or change it.

    The clock (`Utc::now`) and the identifier generator (`Uuid::new_v4`) are
    outside the model: each operation that reads them takes the value it would
    have read as a parameter, so the contracts can name it. */
module Entities {

  /** A UUID as its 128-bit value; only equality is ever used. */
  newtype Uuid = x: int | 0 <= x < 0x1_0000_0000_0000_0000_0000_0000_0000_0000

  /** A UTC instant. Nothing here compares or does arithmetic on instants. */
  type Timestamp = int

  datatype Option<+T> = None | Some(value: T)

  /** A free-form note. */
  datatype Note = Note(
    id: Uuid,
    title: string,
    content: string,
    created_at: Timestamp,
    updated_at: Timestamp)

  /** A checklist item. */
  datatype TodoItem = TodoItem(
    id: Uuid,
    text: string,
    completed: bool,
    created_at: Timestamp,
    completed_at: Option<Timestamp>)

  /** The timestamp rule of a todo item: `completed_at` is present exactly
      when the item is completed. */
  predicate StampConsistent(t: TodoItem)
  {
    t.completed <==> t.completed_at.Some?
  }

  /** `Note::new`: a note created at `now` with identifier `id`. */
  function NewNote(id: Uuid, title: string, content: string, now: Timestamp): (n: Note)
    ensures n.id == id && n.title == title && n.content == content
    ensures n.created_at == n.updated_at == now
  {
    Note(id, title, content, now, now)
  }

  /** `Note::update`: the note after its title and content are rewritten at
      time `now`. Identity and creation time are kept. */
  function UpdateNote(n: Note, title: string, content: string, now: Timestamp): (r: Note)
    ensures r.title == title && r.content == content && r.updated_at == now
    ensures r.id == n.id && r.created_at == n.created_at
  {
    n.(title := title, content := content, updated_at := now)
  }

  /** `TodoItem::new`: an open item created at `now`. */
  function NewTodo(id: Uuid, text: string, now: Timestamp): (t: TodoItem)
    ensures t.id == id && t.text == text && t.created_at == now
    ensures !t.completed && t.completed_at == None
    ensures StampConsistent(t)
  {
    TodoItem(id, text, false, now, None)
  }

  /** `TodoItem::toggle_completed`: the item with its completion flag flipped.
      A newly completed item is stamped with `now`; a reopened one loses its
      stamp, whatever the item held before. */
  function ToggleCompleted(t: TodoItem, now: Timestamp): (r: TodoItem)
    ensures r.completed == !t.completed
    ensures r.completed_at == if r.completed then Some(now) else None
    ensures StampConsistent(r)
    ensures r.id == t.id && r.text == t.text && r.created_at == t.created_at
  {
    var completed := !t.completed;
    t.(completed := completed, completed_at := if completed then Some(now) else None)
  }

  /** The item after one toggle per instant of `nows`, in order. */
  function ToggleTimes(t: TodoItem, nows: seq<Timestamp>): TodoItem
    decreases |nows|
  {
    if nows == [] then t else ToggleTimes(ToggleCompleted(t, nows[0]), nows[1..])
  }

  /** Toggling twice restores the completion flag; the stamp then reflects
      the second toggle, not the original one. */
  lemma ToggleTwice(t: TodoItem, first: Timestamp, second: Timestamp)
    ensures ToggleCompleted(ToggleCompleted(t, first), second).completed == t.completed
    ensures ToggleCompleted(ToggleCompleted(t, first), second).completed_at
              == if t.completed then Some(second) else None
  {
  }

  /** Any number of toggles flips the flag once per toggle, keeps the
      identity, text and creation time, and, after at least one toggle,
      leaves the item stamp-consistent with the stamp of the last toggle. */
  lemma {:induction false} ToggleTimesParity(t: TodoItem, nows: seq<Timestamp>)
    ensures ToggleTimes(t, nows).completed == (t.completed != (|nows| % 2 == 1))
    ensures ToggleTimes(t, nows).id == t.id && ToggleTimes(t, nows).text == t.text
    ensures ToggleTimes(t, nows).created_at == t.created_at
    ensures StampConsistent(t) ==> StampConsistent(ToggleTimes(t, nows))
    ensures nows != [] ==>
              ToggleTimes(t, nows).completed_at
                == if ToggleTimes(t, nows).completed then Some(nows[|nows| - 1]) else None
    decreases |nows|
  {
    if nows != [] {
      var u := ToggleCompleted(t, nows[0]);
      ToggleTimesParity(u, nows[1..]);
      if |nows| > 1 {
        assert nows[1..][|nows[1..]| - 1] == nows[|nows| - 1];
      }
    }
  }

  /** A new item is completed, and carries a completion stamp, exactly after
      an odd number of toggles. */
  lemma NewTodoToggled(id: Uuid, text: string, now: Timestamp, nows: seq<Timestamp>)
    ensures ToggleTimes(NewTodo(id, text, now), nows).completed == (|nows| % 2 == 1)
    ensures ToggleTimes(NewTodo(id, text, now), nows).completed_at.Some? == (|nows| % 2 == 1)
  {
    ToggleTimesParity(NewTodo(id, text, now), nows);
  }
}
