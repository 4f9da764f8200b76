/** The per-event transition of `run_app` (src/main.rs:117-172) as a pure
    function over a snapshot of `AppState`, and the loop over a sequence of
    events. The class in module App is proved to follow these functions. */
module Dispatch {
  import opened Wrappers
  import opened Models
  import opened Selection

  datatype InputMode = Normal | Editing

  /** The crossterm key codes the loop distinguishes; `OtherKey` stands for
      every other code (Tab, Left, Right, function keys, ...). */
  datatype KeyCode = Char(ch: char) | Enter | Backspace | Esc | Up | Down | OtherKey

  datatype KeyEventKind = Press | Repeat | Release

  datatype KeyEvent = KeyEvent(code: KeyCode, kind: KeyEventKind)

  /** What `event::read` returns: a key, or anything else (mouse, resize,
      focus, paste), which the loop skips. */
  datatype Event = Key(key: KeyEvent) | NonKey

  /** What the arboard clipboard would do if the step asked it: no clipboard
      could be opened, or one was opened and `set_text` fails or succeeds. */
  datatype ClipboardOutcome = Unavailable | CopyFailed | CopyOk

  /** One event together with the clipboard's behaviour at that moment. */
  datatype Input = Input(event: Event, clipboard: ClipboardOutcome)

  /** How the loop goes on after an event: keep reading, return `Ok(())`
      from `run_app`, or panic on the `usize` underflow of `next`/`previous`
      (a debug build's overflow check). */
  datatype Flow = Continue | Quit | Panic

  /** The fields of `AppState`; the table state is its selected row. */
  datatype Snapshot = Snapshot(
    titleInput: string,
    descriptionInput: string,
    inputMode: InputMode,
    messages: seq<Snippet>,
    selected: Option<nat>)

  /** The result of handling events: the new fields, how the loop goes on,
      and the text placed on the clipboard, if any. */
  datatype Reaction = Reaction(state: Snapshot, flow: Flow, copied: Option<string>)

  /** `AppState::default()`. */
  function Initial(): Snapshot
  {
    Snapshot([], [], Normal, [], None)
  }

  predicate IsNextKey(code: KeyCode)
  {
    code == Down || code == Char('j')
  }

  predicate IsPreviousKey(code: KeyCode)
  {
    code == Up || code == Char('k')
  }

  /** The states in which `j`/Down (`forward`) or `k`/Up evaluate
      `len() - 1` on an empty table: `next` does so for any selected row,
      `previous` only for row 0. */
  predicate Underflows(s: Snapshot, forward: bool)
  {
    s.selected.Some? && |s.messages| == 0 && (forward || s.selected.value == 0)
  }

  /** `j`/Down and `k`/Up in Normal mode: the cursor moves, unless the move
      underflows `len() - 1`. */
  function Navigate(s: Snapshot, forward: bool): (r: Reaction)
    ensures r.copied == None
    ensures r.flow == Panic <==> s.selected.Some? && |s.messages| == 0 && (forward || s.selected == Some(0))
    ensures r.flow == Panic ==> r.state == s
    ensures r.flow != Panic ==> r.flow == Continue && r.state == s.(selected := r.state.selected)
    ensures |s.messages| > 0 && ValidSelection(s.selected, |s.messages|) ==>
              ValidSelection(r.state.selected, |s.messages|)
  {
    if Underflows(s, forward) then Reaction(s, Panic, None)
    else if forward then Reaction(s.(selected := NextIndex(s.selected, |s.messages|)), Continue, None)
    else Reaction(s.(selected := PreviousIndex(s.selected, |s.messages|)), Continue, None)
  }

  /** `c` in Normal mode: the loop ends when a clipboard was obtained and
      either no snippet is selected or its description was copied; it goes
      on when no clipboard could be opened or the copy failed. */
  function CopySelected(s: Snapshot, clipboard: ClipboardOutcome): (r: Reaction)
    ensures r.state == s
    ensures r.flow != Panic
    ensures r.flow == Quit <==>
              clipboard != Unavailable
              && (GetSelectedSnippet(s.messages, s.selected).None? || clipboard == CopyOk)
    ensures r.copied.Some? <==> clipboard == CopyOk && GetSelectedSnippet(s.messages, s.selected).Some?
    ensures r.copied.Some? ==> r.copied.value == GetSelectedSnippet(s.messages, s.selected).value.description
  {
    match clipboard
    case Unavailable => Reaction(s, Continue, None)
    case _ =>
      match GetSelectedSnippet(s.messages, s.selected)
      case None => Reaction(s, Quit, None)
      case Some(snippet) =>
        if clipboard == CopyOk then Reaction(s, Quit, Some(snippet.description))
        else Reaction(s, Continue, None)
  }

  /** A key in Normal mode; the kind of the key event is not consulted. */
  function NormalKey(s: Snapshot, code: KeyCode, clipboard: ClipboardOutcome): Reaction
    requires s.inputMode == Normal
  {
    match code
    case Char(c) =>
      if c == 'e' then Reaction(s.(inputMode := Editing), Continue, None)
      else if c == 'c' then CopySelected(s, clipboard)
      else if c == 'j' then Navigate(s, true)
      else if c == 'k' then Navigate(s, false)
      else if c == 'q' then Reaction(s, Quit, None)
      else Reaction(s, Continue, None)
    case Down => Navigate(s, true)
    case Up => Navigate(s, false)
    case _ => Reaction(s, Continue, None)
  }

  /** A key press in Editing mode. Enter records a snippet whose title and
      description are both the title input, and neither clears the input
      nor leaves Editing. */
  function EditingKey(s: Snapshot, code: KeyCode): Reaction
    requires s.inputMode == Editing
  {
    match code
    case Enter => Reaction(s.(messages := s.messages + [Snippet(s.titleInput, s.titleInput)]), Continue, None)
    case Char(c) => Reaction(s.(titleInput := s.titleInput + [c]), Continue, None)
    case Backspace =>
      if |s.titleInput| == 0 then Reaction(s, Continue, None)
      else Reaction(s.(titleInput := s.titleInput[..|s.titleInput| - 1]), Continue, None)
    case Esc => Reaction(s.(inputMode := Normal), Continue, None)
    case _ => Reaction(s, Continue, None)
  }

  /** One key event handled by the body of `run_app`'s loop. */
  function Step(s: Snapshot, key: KeyEvent, clipboard: ClipboardOutcome): (r: Reaction)
    ensures r.state.descriptionInput == s.descriptionInput
    ensures r.state.messages == s.messages
            || r.state.messages == s.messages + [Snippet(s.titleInput, s.titleInput)]
    ensures r.flow != Continue ==> r.state == s
    ensures r.flow == Panic <==>
              s.inputMode == Normal && s.selected.Some? && |s.messages| == 0
              && (IsNextKey(key.code) || (IsPreviousKey(key.code) && s.selected == Some(0)))
    ensures r.copied.Some? ==> r.flow == Quit && s.inputMode == Normal && key.code == Char('c')
  {
    match s.inputMode
    case Normal => NormalKey(s, key.code, clipboard)
    case Editing =>
      if key.kind == Press then EditingKey(s, key.code) else Reaction(s, Continue, None)
  }

  /** One iteration of the loop: a key goes to `Step`, any other event is
      skipped. */
  function StepInput(s: Snapshot, input: Input): Reaction
  {
    match input.event
    case Key(key) => Step(s, key, input.clipboard)
    case NonKey => Reaction(s, Continue, None)
  }

  /** The loop over the events read in order: it stops at the first event
      that ends it, and otherwise waits for more once the events run out. */
  function Run(s: Snapshot, inputs: seq<Input>): Reaction
    decreases |inputs|
  {
    if inputs == [] then Reaction(s, Continue, None)
    else
      var r := StepInput(s, inputs[0]);
      if r.flow != Continue then r else Run(r.state, inputs[1..])
  }

  /** The Normal-mode rows of the transition table: `e` starts editing, `q`
      quits, `j`/Down and `k`/Up move the cursor, `c` copies, and every other
      key, of whatever kind, changes nothing. */
  lemma NormalModeTable(s: Snapshot, key: KeyEvent, clipboard: ClipboardOutcome)
    requires s.inputMode == Normal
    ensures key.code == Char('e') ==> Step(s, key, clipboard) == Reaction(s.(inputMode := Editing), Continue, None)
    ensures key.code == Char('q') ==> Step(s, key, clipboard) == Reaction(s, Quit, None)
    ensures IsNextKey(key.code) && (s.selected.None? || |s.messages| > 0) ==>
              Step(s, key, clipboard) == Reaction(s.(selected := NextIndex(s.selected, |s.messages|)), Continue, None)
    ensures IsPreviousKey(key.code) && (s.selected != Some(0) || |s.messages| > 0) ==>
              Step(s, key, clipboard) == Reaction(s.(selected := PreviousIndex(s.selected, |s.messages|)), Continue, None)
    ensures key.code == Char('c') ==> Step(s, key, clipboard) == CopySelected(s, clipboard)
    ensures key.code !in {Char('e'), Char('q'), Char('c'), Char('j'), Char('k'), Down, Up} ==>
              Step(s, key, clipboard) == Reaction(s, Continue, None)
  {
  }

  /** The Editing-mode rows of the transition table. Only presses count; Esc
      keeps the title input; Enter keeps both the input and the mode. */
  lemma EditingModeTable(s: Snapshot, key: KeyEvent, clipboard: ClipboardOutcome)
    requires s.inputMode == Editing
    ensures key.kind != Press ==> Step(s, key, clipboard) == Reaction(s, Continue, None)
    ensures key.kind == Press && key.code == Enter ==>
              Step(s, key, clipboard) == Reaction(s.(messages := s.messages + [Snippet(s.titleInput, s.titleInput)]), Continue, None)
    ensures key.kind == Press && key.code.Char? ==>
              Step(s, key, clipboard) == Reaction(s.(titleInput := s.titleInput + [key.code.ch]), Continue, None)
    ensures key.kind == Press && key.code == Backspace && s.titleInput == [] ==>
              Step(s, key, clipboard) == Reaction(s, Continue, None)
    ensures key.kind == Press && key.code == Backspace && s.titleInput != [] ==>
              Step(s, key, clipboard).state.titleInput + [s.titleInput[|s.titleInput| - 1]] == s.titleInput
              && Step(s, key, clipboard) == Reaction(s.(titleInput := Step(s, key, clipboard).state.titleInput), Continue, None)
    ensures key.kind == Press && key.code == Esc ==> Step(s, key, clipboard) == Reaction(s.(inputMode := Normal), Continue, None)
    ensures key.kind == Press && key.code in {Up, Down, OtherKey} ==> Step(s, key, clipboard) == Reaction(s, Continue, None)
  {
  }

  /** Running the loop on one more event: once the loop has ended the event
      is never read; otherwise it is handled from the state reached so far. */
  lemma {:induction false} RunSnoc(s: Snapshot, inputs: seq<Input>, last: Input)
    ensures Run(s, inputs + [last]) ==
              (var r := Run(s, inputs); if r.flow != Continue then r else StepInput(r.state, last))
    decreases |inputs|
  {
    if inputs == [] {
      assert inputs + [last] == [last];
    } else {
      assert (inputs + [last])[1..] == inputs[1..] + [last];
      var r := StepInput(s, inputs[0]);
      if r.flow == Continue {
        RunSnoc(r.state, inputs[1..], last);
      }
    }
  }

  /** Over any run, `messages` only grows at its end, every snippet added has
      its title as its description, and `description_input` is never
      written. */
  lemma {:induction false} RunAppendsOnly(s: Snapshot, inputs: seq<Input>)
    ensures var r := Run(s, inputs).state;
              |s.messages| <= |r.messages| && r.messages[..|s.messages|] == s.messages
              && r.descriptionInput == s.descriptionInput
              && forall k :: |s.messages| <= k < |r.messages| ==> r.messages[k].title == r.messages[k].description
    decreases |inputs|
  {
    if inputs != [] {
      var r := StepInput(s, inputs[0]);
      if r.flow == Continue {
        RunAppendsOnly(r.state, inputs[1..]);
        var t := Run(r.state, inputs[1..]).state;
        assert r.state.messages[..|s.messages|] == s.messages;
        assert t.messages[..|s.messages|] == t.messages[..|r.state.messages|][..|s.messages|];
      }
    }
  }

  /** Once the table is non-empty and the selection valid, no run panics and
      the selection stays a valid row. */
  lemma {:induction false} RunKeepsSelectionValid(s: Snapshot, inputs: seq<Input>)
    requires |s.messages| > 0 && ValidSelection(s.selected, |s.messages|)
    ensures Run(s, inputs).flow != Panic
    ensures |Run(s, inputs).state.messages| > 0
    ensures ValidSelection(Run(s, inputs).state.selected, |Run(s, inputs).state.messages|)
    decreases |inputs|
  {
    if inputs != [] {
      var r := StepInput(s, inputs[0]);
      if r.flow == Continue {
        RunKeepsSelectionValid(r.state, inputs[1..]);
      }
    }
  }

  /** The key presses that type `text`. */
  function Typed(text: string): seq<Input>
  {
    if text == [] then [] else [Input(Key(KeyEvent(Char(text[0]), Press)), Unavailable)] + Typed(text[1..])
  }

  /** Typing text in Editing mode appends it to the title input and changes
      nothing else. */
  lemma {:induction false} TypingAppends(s: Snapshot, text: string)
    requires s.inputMode == Editing
    ensures Run(s, Typed(text)) == Reaction(s.(titleInput := s.titleInput + text), Continue, None)
    decreases |text|
  {
    if text == [] {
      assert s.titleInput + text == s.titleInput;
    } else {
      var t := s.(titleInput := s.titleInput + [text[0]]);
      var keys := Typed(text);
      assert keys[0] == Input(Key(KeyEvent(Char(text[0]), Press)), Unavailable);
      assert keys[1..] == Typed(text[1..]);
      assert StepInput(s, keys[0]) == Reaction(t, Continue, None);
      assert Run(s, keys) == Run(t, Typed(text[1..]));
      TypingAppends(t, text[1..]);
      assert t.titleInput + text[1..] == s.titleInput + text;
    }
  }

  /** On an empty table the first `j` selects row 0, which names no snippet,
      and the second `j` underflows `len() - 1`. */
  lemma EmptyTableSecondMovePanics()
    ensures var down := Input(Key(KeyEvent(Char('j'), Press)), Unavailable);
              Run(Initial(), [down]).state.selected == Some(0)
              && GetSelectedSnippet(Run(Initial(), [down]).state.messages, Some(0)) == None
              && Run(Initial(), [down, down]).flow == Panic
  {
    var down := Input(Key(KeyEvent(Char('j'), Press)), Unavailable);
    assert [down, down][1..] == [down];
  }

  /** Starting the program, pressing `e`, typing "Hi" and pressing Enter
      records one snippet titled and described "Hi", and stays in Editing
      with "Hi" still in the input. */
  lemma RecordScenario()
    ensures var keys := [Input(Key(KeyEvent(Char('e'), Press)), Unavailable)]
                        + Typed("Hi") + [Input(Key(KeyEvent(Enter, Press)), Unavailable)];
              Run(Initial(), keys) == Reaction(Snapshot("Hi", "", Editing, [Snippet("Hi", "Hi")], None), Continue, None)
  {
    var e := Input(Key(KeyEvent(Char('e'), Press)), Unavailable);
    var enter := Input(Key(KeyEvent(Enter, Press)), Unavailable);
    var editing := Initial().(inputMode := Editing);
    TypingAppends(editing, "Hi");
    RunSnoc(Initial(), [e] + Typed("Hi"), enter);
    assert ([e] + Typed("Hi"))[1..] == Typed("Hi");
    var typed := editing.(titleInput := "Hi");
    assert editing.titleInput + "Hi" == "Hi";
    assert Run(Initial(), [e] + Typed("Hi")) == Run(editing, Typed("Hi")) == Reaction(typed, Continue, None);
    assert StepInput(typed, enter) == Reaction(typed.(messages := [Snippet("Hi", "Hi")]), Continue, None);
  }

  /** Once the loop has ended on a prefix of the events, the events after it
      are never read. */
  lemma {:induction false} RunRest(s: Snapshot, inputs: seq<Input>, n: nat)
    requires n <= |inputs| && Run(s, inputs[..n]).flow != Continue
    ensures Run(s, inputs) == Run(s, inputs[..n])
    decreases n
  {
    assert n > 0;
    assert inputs[..n][1..] == inputs[1..][..n - 1];
    var r := StepInput(s, inputs[0]);
    if r.flow == Continue {
      RunRest(r.state, inputs[1..], n - 1);
    }
  }

  /** The selections the program can reach: on an empty table nothing or
      row 0 is selected, on a non-empty one a valid row or nothing. */
  predicate SelectionInvariant(s: Snapshot)
  {
    if |s.messages| == 0 then s.selected == None || s.selected == Some(0)
    else ValidSelection(s.selected, |s.messages|)
  }

  /** Every run keeps the reachable-selection invariant, and a run that
      panics stops in a state with a row selected in an empty table. */
  lemma {:induction false} RunKeepsSelectionInvariant(s: Snapshot, inputs: seq<Input>)
    requires SelectionInvariant(s)
    ensures SelectionInvariant(Run(s, inputs).state)
    ensures Run(s, inputs).flow == Panic ==>
              Run(s, inputs).state.selected.Some? && Run(s, inputs).state.messages == []
    decreases |inputs|
  {
    if inputs != [] {
      var r := StepInput(s, inputs[0]);
      if r.flow == Continue {
        RunKeepsSelectionInvariant(r.state, inputs[1..]);
      }
    }
  }

  /** From `AppState::default()`, every state the loop reaches selects a
      valid row, nothing, or row 0 of an empty table; so `k`/Up never meets a
      row above 0 in an empty table, and the only panic left is `j`/Down or
      `k`/Up with row 0 selected in an empty table. */
  lemma ReachableSelections(inputs: seq<Input>)
    ensures SelectionInvariant(Run(Initial(), inputs).state)
    ensures var s := Run(Initial(), inputs).state;
              s.selected.Some? && s.selected.value > 0 ==> s.selected.value < |s.messages|
    ensures Run(Initial(), inputs).flow == Panic ==>
              Run(Initial(), inputs).state.selected == Some(0) && Run(Initial(), inputs).state.messages == []
  {
    RunKeepsSelectionInvariant(Initial(), inputs);
  }
}
