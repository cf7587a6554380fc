/** The store: two ordered collections of records, the operations that change
    them, and the fallback rule of loading. */
module Store {
  import opened Entities

  function NoteId(n: Note): Uuid { n.id }

  function TodoId(t: TodoItem): Uuid { t.id }

  /** No two entries of `s` share an identifier. */
  ghost predicate UniqueIds<T>(s: seq<T>, key: T -> Uuid)
  {
    forall i, j :: 0 <= i < j < |s| ==> key(s[i]) != key(s[j])
  }

  /** What `Vec::retain` keeps of `s` when it drops every entry whose
      identifier is `id`. */
  function Retained<T(!new)>(s: seq<T>, id: Uuid, key: T -> Uuid): (r: seq<T>)
    ensures |r| <= |s|
    ensures forall x :: x in r <==> x in s && key(x) != id
    decreases |s|
  {
    if s == [] then []
    else (if key(s[0]) == id then [] else [s[0]]) + Retained(s[1..], id, key)
  }

  /** Filtering distributes over concatenation: the entries that stay keep
      their relative order. */
  lemma {:induction false} RetainedAppend<T(!new)>(a: seq<T>, b: seq<T>, id: Uuid, key: T -> Uuid)
    ensures Retained(a + b, id, key) == Retained(a, id, key) + Retained(b, id, key)
    decreases |a|
  {
    if a == [] {
      assert a + b == b;
    } else {
      assert (a + b)[0] == a[0];
      assert (a + b)[1..] == a[1..] + b;
      RetainedAppend(a[1..], b, id, key);
    }
  }

  /** Removal leaves the sequence unchanged exactly when no entry has the
      identifier. */
  lemma {:induction false} RetainedMiss<T(!new)>(s: seq<T>, id: Uuid, key: T -> Uuid)
    ensures Retained(s, id, key) == s <==> forall x :: x in s ==> key(x) != id
    decreases |s|
  {
    if s != [] {
      RetainedMiss(s[1..], id, key);
      if forall x :: x in s ==> key(x) != id {
        assert forall x :: x in s[1..] ==> key(x) != id;
      }
    }
  }

  /** Removal keeps identifiers unique. */
  lemma {:induction false} RetainedUnique<T(!new)>(s: seq<T>, id: Uuid, key: T -> Uuid)
    requires UniqueIds(s, key)
    ensures UniqueIds(Retained(s, id, key), key)
    decreases |s|
  {
    if s != [] {
      assert UniqueIds(s[1..], key);
      RetainedUnique(s[1..], id, key);
      var rest := Retained(s[1..], id, key);
      if key(s[0]) != id {
        forall x | x in rest ensures key(x) != key(s[0]) {
          var j :| 0 <= j < |s[1..]| && s[1..][j] == x;
          assert s[j + 1] == x;
        }
      }
    }
  }

  /** With unique identifiers, removing an identifier that is present drops
      exactly one entry. */
  lemma {:induction false} RetainedDropsOne<T(!new)>(s: seq<T>, k: nat, key: T -> Uuid)
    requires UniqueIds(s, key) && k < |s|
    ensures |Retained(s, key(s[k]), key)| == |s| - 1
    decreases |s|
  {
    var id := key(s[k]);
    if k == 0 {
      assert forall x :: x in s[1..] ==> key(x) != id by {
        forall x | x in s[1..] ensures key(x) != id {
          var j :| 0 <= j < |s[1..]| && s[1..][j] == x;
          assert s[j + 1] == x;
        }
      }
      RetainedMiss(s[1..], id, key);
    } else {
      assert UniqueIds(s[1..], key);
      assert s[1..][k - 1] == s[k];
      RetainedDropsOne(s[1..], k - 1, key);
      assert key(s[0]) != id;
    }
  }

  /** Where `iter_mut().find` stops: the index of the first entry with
      identifier `id`, if there is one. */
  function FirstMatch(todos: seq<TodoItem>, id: Uuid): (r: Option<nat>)
    ensures r.Some? ==> r.value < |todos| && todos[r.value].id == id
    ensures r.Some? ==> forall j :: 0 <= j < r.value ==> todos[j].id != id
    ensures r.None? <==> forall j :: 0 <= j < |todos| ==> todos[j].id != id
    decreases |todos|
  {
    if todos == [] then None
    else if todos[0].id == id then Some(0)
    else match FirstMatch(todos[1..], id)
      case None => None
      case Some(k) => Some(k + 1)
  }

  /** The content of a well-formed data file: both collections in full. */
  datatype Snapshot = Snapshot(notes: seq<Note>, todos: seq<TodoItem>)

  /** The store (`AppData`). Both collections keep insertion order. */
  class AppData {
    var notes: seq<Note>
    var todos: seq<TodoItem>

    /** The rules the records are meant to obey: identifiers are unique
        within each collection and every todo item is stamp-consistent. The
        operations do not check them; the lemmas and ensures below say which
        operations keep them. */
    ghost predicate Valid()
      reads this
    {
      && UniqueIds(notes, NoteId)
      && UniqueIds(todos, TodoId)
      && forall t :: t in todos ==> StampConsistent(t)
    }

    /** `AppData::default`: an empty store. */
    constructor ()
      ensures notes == [] && todos == []
      ensures Valid()
    {
      notes := [];
      todos := [];
    }

    /** `AppData::load`. `stored` is the data file's text, or `None` when the
        file is absent or cannot be read; `parse` stands for JSON decoding.
        Anything but a successful parse yields the empty store. */
    constructor Load(stored: Option<string>, parse: string -> Option<Snapshot>)
      ensures stored.Some? && parse(stored.value).Some? ==>
                notes == parse(stored.value).value.notes && todos == parse(stored.value).value.todos
      ensures stored.None? || parse(stored.value).None? ==> notes == [] && todos == []
    {
      var loaded := Snapshot([], []);
      if stored.Some? {
        var parsed := parse(stored.value);
        if parsed.Some? {
          loaded := parsed.value;
        }
      }
      notes := loaded.notes;
      todos := loaded.todos;
    }

    /** `add_note`: append at the end. The store stays valid exactly when
        the new note's identifier is not already taken. */
    method AddNote(note: Note)
      modifies this
      ensures notes == old(notes) + [note] && todos == old(todos)
      ensures Valid() <==> old(Valid()) && forall n :: n in old(notes) ==> n.id != note.id
    {
      AppendUnique(notes, note, NoteId);
      notes := notes + [note];
    }

    /** `remove_note`: drop every note with identifier `id`, keeping the
        order of the rest; a miss changes nothing, and in a valid store a
        hit drops exactly one note. */
    method RemoveNote(id: Uuid)
      modifies this
      ensures notes == Retained(old(notes), id, NoteId) && todos == old(todos)
      ensures forall n :: n in notes ==> n.id != id
      ensures (forall n :: n in old(notes) ==> n.id != id) ==> notes == old(notes)
      ensures old(Valid()) ==> Valid()
      ensures old(Valid()) ==>
                |notes| == if exists n :: n in old(notes) && n.id == id
                           then |old(notes)| - 1 else |old(notes)|
    {
      RetainedMiss(notes, id, NoteId);
      if UniqueIds(notes, NoteId) {
        RetainedUnique(notes, id, NoteId);
        if exists n :: n in notes && n.id == id {
          var k :| 0 <= k < |notes| && notes[k].id == id;
          RetainedDropsOne(notes, k, NoteId);
        }
      }
      notes := Retained(notes, id, NoteId);
    }

    /** `add_todo`: append at the end. The store stays valid exactly when
        the new item's identifier is not already taken and it is
        stamp-consistent. */
    method AddTodo(todo: TodoItem)
      modifies this
      ensures todos == old(todos) + [todo] && notes == old(notes)
      ensures Valid() <==> && old(Valid())
                           && (forall t :: t in old(todos) ==> t.id != todo.id)
                           && StampConsistent(todo)
    {
      AppendUnique(todos, todo, TodoId);
      todos := todos + [todo];
    }

    /** `remove_todo`: drop every item with identifier `id`, keeping the
        order of the rest; a miss changes nothing, and in a valid store a
        hit drops exactly one item. */
    method RemoveTodo(id: Uuid)
      modifies this
      ensures todos == Retained(old(todos), id, TodoId) && notes == old(notes)
      ensures forall t :: t in todos ==> t.id != id
      ensures (forall t :: t in old(todos) ==> t.id != id) ==> todos == old(todos)
      ensures old(Valid()) ==> Valid()
      ensures old(Valid()) ==>
                |todos| == if exists t :: t in old(todos) && t.id == id
                           then |old(todos)| - 1 else |old(todos)|
    {
      RetainedMiss(todos, id, TodoId);
      if UniqueIds(todos, TodoId) {
        RetainedUnique(todos, id, TodoId);
        if exists t :: t in todos && t.id == id {
          var k :| 0 <= k < |todos| && todos[k].id == id;
          RetainedDropsOne(todos, k, TodoId);
        }
      }
      todos := Retained(todos, id, TodoId);
    }

    /** `toggle_todo`: toggle the first item with identifier `id` at time
        `now`; every other item, the length and the notes are unchanged, and
        a miss changes nothing. */
    method ToggleTodo(id: Uuid, now: Timestamp)
      modifies this
      ensures notes == old(notes) && |todos| == |old(todos)|
      ensures FirstMatch(old(todos), id).None? ==> todos == old(todos)
      ensures FirstMatch(old(todos), id).Some? ==>
                var k := FirstMatch(old(todos), id).value;
                && todos[k] == ToggleCompleted(old(todos)[k], now)
                && forall j :: 0 <= j < |todos| && j != k ==> todos[j] == old(todos)[j]
      ensures old(Valid()) ==> Valid()
    {
      match FirstMatch(todos, id)
      case None =>
      case Some(k) =>
        var toggled := todos[k := ToggleCompleted(todos[k], now)];
        assert forall j :: 0 <= j < |toggled| ==> toggled[j].id == todos[j].id;
        assert forall t :: t in toggled ==> t == toggled[k] || t in todos;
        todos := toggled;
    }
  }

  /** Appending `x` keeps identifiers unique exactly when no entry already
      has `x`'s identifier. */
  lemma AppendUnique<T(!new)>(s: seq<T>, x: T, key: T -> Uuid)
    ensures UniqueIds(s + [x], key) <==> UniqueIds(s, key) && forall y :: y in s ==> key(y) != key(x)
  {
    var s' := s + [x];
    if UniqueIds(s', key) {
      assert forall i, j :: 0 <= i < j < |s| ==> s[i] == s'[i] && s[j] == s'[j];
      forall y | y in s ensures key(y) != key(x) {
        var i :| 0 <= i < |s| && s[i] == y;
        assert s'[i] == y && s'[|s|] == x;
      }
    }
  }

  /** Removing the middle one of three entries by its identifier. */
  lemma RetainedMiddle<T(!new)>(x: T, y: T, z: T, id: Uuid, key: T -> Uuid)
    requires key(x) != id && key(y) == id && key(z) != id
    ensures Retained([x, y, z], id, key) == [x, z]
  {
    assert [x, y, z][1..] == [y, z] && [y, z][1..] == [z];
    assert Retained([z], id, key) == [z];
  }

  /** A client of the store: three items added in order, then the middle
      one removed by identifier; exactly the other two remain, in their
      original order. */
  method TodoScenario(a: Uuid, b: Uuid, c: Uuid, now: Timestamp)
    returns (added: seq<TodoItem>, after: seq<TodoItem>)
    requires a != b && b != c
    ensures |added| == 3 && added[0].text == "A" && added[1].text == "B" && added[2].text == "C"
    ensures |after| == 2 && after[0].text == "A" && after[1].text == "C"
  {
    var ta, tb, tc := NewTodo(a, "A", now), NewTodo(b, "B", now), NewTodo(c, "C", now);
    var store := new AppData();
    store.AddTodo(ta);
    store.AddTodo(tb);
    store.AddTodo(tc);
    assert store.todos == [ta, tb, tc];
    added := store.todos;
    assert added[1] == tb && tb.id == b;
    store.RemoveTodo(b);
    RetainedMiddle(ta, tb, tc, b, TodoId);
    assert store.todos == [ta, tc];
    after := store.todos;
  }
}
