# sniprrr in Dafny: the application state and its key handling

sniprrr is a terminal snippet manager. Its program keeps an `AppState`
(src/main.rs). That state holds:

- a title input box and a description input;
- an input mode, `Normal` or `Editing`;
- the list of recorded `Snippet`s (title and description);
- the selected row of the snippet table.

`run_app` reads one terminal event at a time and updates that state.
This project models the state, the cursor movement of `next` and
`previous`, the lookup `get_selected_snippet`, and the key dispatch of
`run_app`'s loop. It proves the properties these promise.

Modules:

- `Models`: `Snippet`, from src/models.rs.
- `Selection`: the cursor moves as pure functions (`NextIndex`,
  `PreviousIndex`) and the bounds-checked lookup (`GetSelectedSnippet`).
  It also holds the wrap-around and round-trip lemmas.
- `Dispatch`: the transition of one key event (`Step`) over a `Snapshot` of
  the fields. `Run` is the loop over a sequence of events. The module also
  holds the lemmas about both.
- `App`: the class `AppState` with the source's fields. Its methods update
  the fields in place: `Next`, `Previous`, `HandleKey` (the loop body) and
  `RunApp` (the loop). Each is proved to follow the function in `Dispatch`
  or `Selection` that specifies it.
- `Wrappers`: `Option`.

The terminal is replaced by parameters. `terminal.draw` is dropped.
The event that `event::read` returns is passed in. The arboard clipboard
becomes a `ClipboardOutcome`: no clipboard could be opened, the copy
failed, or the copy succeeded. A step reports a `Flow`:

- `Continue`: keep reading events.
- `Quit`: `run_app` returns `Ok(())`.
- `Panic`: `messages.len() - 1` was computed on an empty list. `next`
  does this whenever a row is selected. `previous` does it only when row 0
  is selected. A debug build panics on that `usize` underflow, and the
  state is left as it was.

The step also reports the text placed on the clipboard, if any.

Behaviour as written, which the model keeps:

- Normal mode does not look at the key event's kind, so a key release
  also acts there. Editing mode acts on presses only.
- `c` first opens the clipboard. If that fails, the loop goes on. Otherwise
  it quits when nothing valid is selected. With a selected snippet it quits
  after a successful copy of the snippet's description and goes on after a
  failed copy.
- Enter in Editing mode appends one snippet whose title and description
  are both the title input. It clears nothing and stays in Editing.
- No key deletes a snippet, writes `description_input`, or moves input
  focus. Nothing is saved to disk.
- On an empty list, the first `j` selects row 0, which names no snippet.
  The second `j` underflows (`Dispatch.EmptyTableSecondMovePanics`).
- From the start state, only three selections can be reached: none, a
  valid row, or row 0 of an empty list (`Dispatch.ReachableSelections`).

## Model

| member | source | states |
|---|---|---|
| `Selection.NextIndex` | src/main.rs:43-55 | With no selection the cursor goes to row 0. A valid row `i` goes to `(i + 1) mod len`, wrapping from the last row to 0. A row past the end goes to 0. A selection is only allowed on a non-empty list, because `len() - 1` underflows. On a non-empty list the result is a valid row. |
| `Selection.PreviousIndex` | src/main.rs:57-69 | With no selection the cursor goes to row 0. A valid row `i` goes to `(i - 1) mod len`, wrapping from 0 to the last row. A row past the end only steps down by one, even on an empty list. Row 0 may be selected only on a non-empty list, because only then is `len() - 1` computed. A valid selection stays valid. |
| `Selection.GetSelectedSnippet` | src/main.rs:177-180 | Returns a snippet exactly when a row is selected and is below the list's length, and then it is that row's snippet. Otherwise it returns nothing. |
| `Selection.PreviousUndoesNext` | src/main.rs:43-69 | For any valid row, `previous` after `next` returns to it. |
| `Selection.NextUndoesPrevious` | src/main.rs:43-69 | For any valid row, `next` after `previous` returns to it. |
| `Selection.NextTimesModular` | src/main.rs:43-55 | `n` calls of `next` from valid row `i` land on row `(i + n) mod len`. |
| `Selection.PreviousTimesModular` | src/main.rs:57-69 | `n` calls of `previous` from valid row `i` land on row `(i - n) mod len`. |
| `Selection.NextCycle` | src/main.rs:43-55 | Calling `next` once per row returns the cursor to its starting row. |
| `Selection.PreviousCycle` | src/main.rs:57-69 | Calling `previous` once per row returns the cursor to its starting row. |
| `Dispatch.Navigate` | src/main.rs:146-147 | On an empty list, `j`/Down panics exactly when a row is selected, and `k`/Up exactly when row 0 is selected. A panic changes nothing. Otherwise they change only the selection and keep it valid on a non-empty list. |
| `Dispatch.CopySelected` | src/main.rs:122-145 | `c` never changes the state. It quits exactly when a clipboard was opened and either no snippet is selected or the copy succeeded. Text reaches the clipboard exactly on a successful copy with a snippet selected, and that text is the snippet's description. |
| `Dispatch.Step` | src/main.rs:117-172 | One key event never writes `description_input`. It either leaves `messages` as it was or appends exactly the snippet (title input, title input). Quitting or panicking leaves the state unchanged. It panics exactly in Normal mode on an empty list, for `j`/Down with any row selected and for `k`/Up with row 0 selected. Only `c` in Normal mode copies. |
| `Dispatch.NormalModeTable` | src/main.rs:118-150 | In Normal mode, for key events of any kind: `e` switches to Editing, `q` quits, `j`/Down apply `next`, `k`/Up apply `previous`, and `c` copies. Every other key changes nothing. |
| `Dispatch.EditingModeTable` | src/main.rs:151-171 | In Editing mode, non-press events change nothing. A press of Enter appends (title, title) and keeps the input and the mode. A character is appended to the title input. Backspace drops the title's last character and does nothing on an empty title. Esc returns to Normal and keeps the input. Other keys change nothing. |
| `Dispatch.RunSnoc` | src/main.rs:113-174 | Running the loop on one more event handles that event from the state reached so far, unless the loop has already ended. |
| `Dispatch.RunRest` | src/main.rs:113-174 | Once the loop ends, the events after that point are never read. |
| `Dispatch.RunAppendsOnly` | src/main.rs:152-159 | Over any sequence of events, `messages` keeps its old entries as a prefix and is never shortened or reordered. Every snippet added has equal title and description. `description_input` is never written. |
| `Dispatch.RunKeepsSelectionValid` | src/main.rs:43-69 | From a non-empty list with a valid or absent selection, no sequence of events panics. The list stays non-empty and the selection stays valid. |
| `Dispatch.TypingAppends` | src/main.rs:160-162 | In Editing mode, pressing the keys of a text appends exactly that text to the title input and changes nothing else. |
| `Dispatch.RunKeepsSelectionInvariant` | src/main.rs:43-69 | Every run keeps the selection absent, valid, or row 0 of an empty list. A run that panics stops with a row selected in an empty list. |
| `Dispatch.ReachableSelections` | src/main.rs:93 | From `AppState::default()`, every reached state selects nothing, a valid row, or row 0 of an empty list. A selected row above 0 is always valid. A panic happens only with row 0 selected in an empty list. |
| `Dispatch.EmptyTableSecondMovePanics` | src/main.rs:43-55 | From the start state, `j` selects row 0. No snippet exists at that row. A second `j` panics on the underflow. |
| `Dispatch.RecordScenario` | src/main.rs:119-162 | From the start state, `e`, typing "Hi" and Enter record the single snippet ("Hi", "Hi"). The program stays in Editing with "Hi" still in the input. |
| `App.AppState.constructor` | src/main.rs:72-82 | `AppState::default()` has empty inputs, Normal mode, no snippets and no selection. |
| `App.AppState.Next` | src/main.rs:43-55 | The selection becomes `NextIndex` of the old selection. Nothing else changes. |
| `App.AppState.Previous` | src/main.rs:57-69 | Row 0 may be selected only on a non-empty list. The selection becomes `PreviousIndex` of the old selection. Nothing else changes. |
| `App.AppState.Navigate` | src/main.rs:146-147 | Makes the underflow check around `next`/`previous` explicit. The fields and flow are those `Dispatch.Navigate` gives. |
| `App.AppState.HandleKey` | src/main.rs:117-172 | Updating the fields in place gives the new state, flow and copied text that `Dispatch.Step` gives for the old state. |
| `App.AppState.RunApp` | src/main.rs:112-175 | Handling the events in order until one ends the loop gives the state, flow and copied text that `Dispatch.Run` gives. |

## Left out

- `main` (src/main.rs:84-110) is terminal setup and teardown and error printing. It is I/O and is not modelled.
- `ui` (src/main.rs:182-280) is rendering only. The model treats drawing as leaving the selection unchanged. Any offset or selection adjustment ratatui makes while rendering the table is not modelled.
- `terminal.draw` and `event::read` (src/main.rs:114-116) are replaced by events passed in. Their I/O errors, which make `run_app` return `Err`, are not modelled.
- `App.AppState.RunApp` returns `Continue` once the events run out. The real loop blocks waiting for the next event.
- Key modifiers are not modelled. The source matches on the key code only.
- `Clipboard::new` and `set_text` (src/main.rs:123-143) are arboard calls. Only their success or failure is modelled. The `println!` at line 142 is dropped.
- What happens after a panic is not modelled. The panic unwinds out of `run_app` without restoring the terminal.
- A release build wraps the `usize` subtraction around instead of panicking. The model gives only the debug build's panic.
- src/file_utils.rs is not part of this model. It writes to the config directory, and the program never declares it as a module, so it is never called.
- The serde derives on `Snippet` (src/models.rs:5) are library-generated JSON and are not modelled.
