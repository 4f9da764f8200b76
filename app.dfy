/** `AppState` of src/main.rs as an object whose methods update its fields in
    place: `next`, `previous`, the body of `run_app`'s loop, and the loop
    itself with the terminal's events passed in. */
module App {
  import opened Wrappers
  import opened Models
  import opened Selection
  import opened Dispatch

  class AppState {
    /** Current value of the input box. */
    var titleInput: string
    var descriptionInput: string
    var inputMode: InputMode
    /** The recorded snippets, in display order. */
    var messages: seq<Snippet>
    /** The row selected in the table, as `TableState::selected()` reports it. */
    var selected: Option<nat>

    /** The fields as a value, for stating what the methods do. */
    function View(): Snapshot
      reads this
    {
      Snapshot(titleInput, descriptionInput, inputMode, messages, selected)
    }

    /** `AppState::default()`: empty inputs, Normal mode, no snippets, no
        row selected. */
    constructor ()
      ensures View() == Initial()
    {
      titleInput, descriptionInput := [], [];
      inputMode := Normal;
      messages := [];
      selected := None;
    }

    /** `AppState::next`: only the selection changes. */
    method Next()
      requires selected.Some? ==> |messages| > 0
      modifies this`selected
      ensures selected == NextIndex(old(selected), |messages|)
    {
      match selected {
        case Some(i) =>
          if i >= |messages| - 1 {
            selected := Some(0);
          } else {
            selected := Some(i + 1);
          }
        case None =>
          selected := Some(0);
      }
    }

    /** `AppState::previous`: only the selection changes. */
    method Previous()
      requires selected == Some(0) ==> |messages| > 0
      modifies this`selected
      ensures selected == PreviousIndex(old(selected), |messages|)
    {
      match selected {
        case Some(i) =>
          if i == 0 {
            selected := Some(|messages| - 1);
          } else {
            selected := Some(i - 1);
          }
        case None =>
          selected := Some(0);
      }
    }

    /** The underflow check a debug build performs inside `next` and
        `previous` before the cursor moves. */
    method Navigate(forward: bool) returns (flow: Flow)
      modifies this`selected
      ensures Reaction(View(), flow, None) == Dispatch.Navigate(old(View()), forward)
    {
      if selected.Some? && |messages| == 0 && (forward || selected.value == 0) {
        flow := Panic;
      } else {
        if forward {
          Next();
        } else {
          Previous();
        }
        flow := Continue;
      }
    }

    /** One key event handled by the body of `run_app`'s loop: the fields
        change as `Step` says, and `flow` tells whether the loop goes on. */
    method HandleKey(key: KeyEvent, clipboard: ClipboardOutcome) returns (flow: Flow, copied: Option<string>)
      modifies this
      ensures Reaction(View(), flow, copied) == Step(old(View()), key, clipboard)
    {
      flow, copied := Continue, None;
      match inputMode {
        case Normal =>
          match key.code {
            case Char(c) =>
              if c == 'e' {
                inputMode := Editing;
              } else if c == 'c' {
                if clipboard != Unavailable {
                  var snippet := GetSelectedSnippet(messages, selected);
                  if snippet.None? {
                    flow := Quit;
                  } else if clipboard == CopyOk {
                    flow, copied := Quit, Some(snippet.value.description);
                  }
                }
              } else if c == 'j' {
                flow := Navigate(true);
              } else if c == 'k' {
                flow := Navigate(false);
              } else if c == 'q' {
                flow := Quit;
              }
            case Down =>
              flow := Navigate(true);
            case Up =>
              flow := Navigate(false);
            case _ =>
          }
        case Editing =>
          if key.kind == Press {
            match key.code {
              case Enter =>
                messages := messages + [Snippet(titleInput, titleInput)];
              case Char(c) =>
                titleInput := titleInput + [c];
              case Backspace =>
                if |titleInput| > 0 {
                  titleInput := titleInput[..|titleInput| - 1];
                }
              case Esc =>
                inputMode := Normal;
              case _ =>
            }
          }
      }
    }

    /** `run_app`'s loop over the events `event::read` delivers, in order: it
        handles each until one ends the loop, and then reads no further. */
    method RunApp(inputs: seq<Input>) returns (flow: Flow, copied: Option<string>)
      modifies this
      ensures Reaction(View(), flow, copied) == Run(old(View()), inputs)
    {
      flow, copied := Continue, None;
      var i := 0;
      while i < |inputs| && flow == Continue
        invariant 0 <= i <= |inputs|
        invariant flow == Continue ==> copied == None
        invariant Reaction(View(), flow, copied) == Run(old(View()), inputs[..i])
        invariant flow != Continue ==> Run(old(View()), inputs[..i]) == Run(old(View()), inputs)
      {
        ghost var before := View();
        RunSnoc(old(View()), inputs[..i], inputs[i]);
        assert inputs[..i + 1] == inputs[..i] + [inputs[i]];
        assert Run(old(View()), inputs[..i + 1]) == StepInput(before, inputs[i]);
        match inputs[i].event {
          case Key(key) =>
            flow, copied := HandleKey(key, inputs[i].clipboard);
          case NonKey =>
        }
        i := i + 1;
        if flow != Continue {
          RunRest(old(View()), inputs, i);
        }
      }
      assert inputs[..i] == inputs || flow != Continue;
    }
  }
}
