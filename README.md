# linux-notes entity store, in Dafny

This project models the entity store of linux-notes, a single-user GTK note
keeper. The store holds two ordered collections: free-form notes and checklist
items (todos). It also holds the operations that create records, change records,
and add or remove them.

- `entities.dfy` (module `Entities`) holds the record types `Note` and
  `TodoItem`. It also holds their constructors and the two mutators: note
  update and todo toggle. A record is a value. A mutator that assigns fields
  through `&mut self` is a function that returns the record after the
  assignment.
- `store.dfy` (module `Store`) holds `AppData`, a class with two `seq` fields,
  `notes` and `todos`. Its methods reassign those fields. Two specification
  functions sit beside it:
  - `Retained` is what `Vec::retain` keeps when it drops one identifier.
  - `FirstMatch` is where `iter_mut().find` stops.
  Lemmas about both functions carry the properties. The ghost predicate
  `AppData.Valid` states the rules the records are meant to obey: identifiers
  are unique in each collection, and `completed_at` is present exactly when a
  todo is completed. The code never checks these rules. The method contracts
  say which operations keep them.

The clock (`Utc::now`) and the identifier generator (`Uuid::new_v4`) are
parameters: `now` and `id`. A `Uuid` is its 128-bit value, and the model only
compares identifiers for equality. A timestamp is an `int`.

## Model

| member | source | states |
|---|---|---|
| `Entities.NewNote` | src/data.rs:17-26 | the new note has the given id, title and content, and was created and last updated at the same instant `now` |
| `Entities.UpdateNote` | src/data.rs:28-32 | title and content become the arguments and `updated_at` becomes `now`; `id` and `created_at` are unchanged |
| `Entities.NewTodo` | src/data.rs:45-53 | the new item has the given id and text, is not completed, has no completion stamp (so it is stamp-consistent) and was created at `now` |
| `Entities.ToggleCompleted` | src/data.rs:55-62 | `completed` is negated; `completed_at` is `Some(now)` exactly when the item is now completed and `None` otherwise, so the result is stamp-consistent whatever the input; id, text and creation time are unchanged |
| `Entities.ToggleTwice` | src/data.rs:55-62 | two toggles restore `completed`, and `completed_at` then reflects the second toggle, not the original stamp |
| `Entities.ToggleTimesParity` | src/data.rs:55-62 | after n toggles, `completed` is flipped exactly when n is odd; id, text and creation time are kept; stamp-consistency is preserved; after at least one toggle the stamp is that of the last toggle when completed |
| `Entities.NewTodoToggled` | src/data.rs:45-62 | a new item is completed, and carries a completion stamp, exactly after an odd number of toggles |
| `Store.Retained` | src/data.rs:119-129 | the filtered sequence is no longer than the input, and an entry is in it exactly when it is in the input and its id differs from the removed id |
| `Store.RetainedAppend` | src/data.rs:119-129 | filtering distributes over concatenation, so the entries that remain keep their relative order |
| `Store.RetainedMiss` | src/data.rs:119-129 | removal leaves the sequence unchanged if and only if no entry has the removed id |
| `Store.RetainedUnique` | src/data.rs:119-129 | removal keeps identifiers unique |
| `Store.RetainedDropsOne` | src/data.rs:119-129 | with unique identifiers, removing an identifier that is present drops exactly one entry |
| `Store.FirstMatch` | src/data.rs:131-135 | the result is the index of the first todo with the id, with no earlier match; there is none exactly when no todo has the id |
| `Store.AppendUnique` | src/data.rs:115-125 | appending keeps identifiers unique if and only if no existing entry has the new entry's id |
| `Store.AppData.constructor` | src/data.rs:71-78 | the default store has no notes and no todos (and is valid) |
| `Store.AppData.Load` | src/data.rs:81-99 | a stored text that parses gives exactly the parsed notes and todos; an absent or unreadable file, or text that does not parse, gives the empty store |
| `Store.AppData.AddNote` | src/data.rs:115-117 | `notes` becomes the old notes followed by the argument; `todos` is unchanged; the store is valid afterwards if and only if it was valid before and the id was not yet taken |
| `Store.AppData.RemoveNote` | src/data.rs:119-121 | `notes` becomes the old notes filtered to other ids; no remaining note has the id; a miss leaves `notes` unchanged; in a valid store a hit drops exactly one note; `todos` is unchanged; validity is kept |
| `Store.AppData.AddTodo` | src/data.rs:123-125 | `todos` becomes the old todos followed by the argument; `notes` is unchanged; validity holds afterwards if and only if it held before, the id is fresh and the item is stamp-consistent |
| `Store.AppData.RemoveTodo` | src/data.rs:127-129 | `todos` becomes the old todos filtered to other ids; no remaining todo has the id; a miss leaves `todos` unchanged; in a valid store a hit drops exactly one item; `notes` is unchanged; validity is kept |
| `Store.AppData.ToggleTodo` | src/data.rs:131-135 | only the first todo with the id is toggled with `now`; every other entry, the length and `notes` are unchanged; a miss changes nothing; validity is kept |
| `Store.TodoScenario` | src/data.rs:123-129 | after adding items "A", "B", "C" the store holds exactly those three in that order; removing "B" by id leaves exactly two items, "A" then "C" |

## Left out

- `AppData::save` (src/data.rs:101-113) is not modelled. It resolves the per-user data directory, creates it, serialises the store with `serde_json` and overwrites the file, and it discards every failure. All of that is file-system I/O and a library that is not part of this model. For the same reason, a save-then-load round trip is not stated.
- `Store.AppData.Load` models only the branch structure of `AppData::load`. Directory resolution (`dirs::data_dir` with its fallback to `.`), directory creation and the existence test become one `stored` parameter, which is `None` when the file is absent or unreadable. JSON decoding becomes the `parse` parameter.
- `Entities.UpdateNote`: the model does not state that `updated_at` never decreases. That holds only if the clock never goes backwards, and the clock is a parameter here.
- Uniqueness of identifiers is not enforced. `add_note` and `add_todo` do not check for duplicates, and random UUIDs are only probably unique. The model records when an operation keeps uniqueness instead of promising it.
- `Note::update` and `TodoItem::toggle_completed` change a record in place through `&mut self`. The model returns the changed record instead. A `Vec` owns its records by value, so no other reference can observe the difference. `Store.AppData.ToggleTodo` writes the toggled item back at the index `find` reached.
- `src/ui.rs` and `src/main.rs` are not part of this model. They hold GTK widget construction and signal handlers, which only call the store operations above. They also hold the shared `Rc<RefCell<AppData>>` handle, the UI's blank-text guard before `add_todo`, and the save-on-close hook.
