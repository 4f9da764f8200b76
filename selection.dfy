/** The table cursor of `AppState`: how `next` and `previous` move the
    selection and how `get_selected_snippet` reads it. The ratatui
    `TableState` is used only through `selected()` and `select(..)`, so the
    cursor is an optional row index. */
module Selection {
  import opened Wrappers
  import opened Models

  /** A selection that is absent or names a row of a table of `len` rows. */
  predicate ValidSelection(selected: Option<nat>, len: nat)
  {
    selected.None? || selected.value < len
  }

  /** The selection `AppState::next` stores. With a row selected it computes
      `len - 1`, which underflows `usize` on an empty table, so that case is
      excluded; with nothing selected it selects row 0 even when the table is
      empty. */
  function NextIndex(selected: Option<nat>, len: nat): (r: Option<nat>)
    requires selected.Some? ==> len > 0
    ensures r.Some?
    ensures selected.None? ==> r == Some(0)
    ensures selected.Some? && selected.value < len ==> r == Some((selected.value + 1) % len)
    ensures selected.Some? && selected.value >= len ==> r == Some(0)
    ensures len > 0 ==> ValidSelection(r, len)
  {
    match selected
    case None => Some(0)
    case Some(i) => if i >= len - 1 then Some(0) else Some(i + 1)
  }

  /** The selection `AppState::previous` stores. Only a selection of row 0
      computes `len - 1`, which underflows `usize` on an empty table, so that
      case is excluded. An out-of-range selection only steps down by one. */
  function PreviousIndex(selected: Option<nat>, len: nat): (r: Option<nat>)
    requires selected == Some(0) ==> len > 0
    ensures r.Some?
    ensures selected.None? ==> r == Some(0)
    ensures selected.Some? && selected.value < len ==> r == Some((selected.value - 1) % len)
    ensures selected.Some? && selected.value >= len ==> r == Some(selected.value - 1)
    ensures len > 0 && ValidSelection(selected, len) ==> ValidSelection(r, len)
  {
    match selected
    case None => Some(0)
    case Some(i) => if i == 0 then Some(len - 1) else Some(i - 1)
  }

  /** `get_selected_snippet`: the selected snippet, or nothing when no row is
      selected or the selected index is past the end of the list. */
  function GetSelectedSnippet(messages: seq<Snippet>, selected: Option<nat>): (r: Option<Snippet>)
    ensures r.Some? <==> selected.Some? && selected.value < |messages|
    ensures r.Some? ==> r.value == messages[selected.value]
  {
    match selected
    case None => None
    case Some(i) => if i < |messages| then Some(messages[i]) else None
  }

  /** The selection after `n` calls of `next` on a non-empty table. */
  function NextTimes(selected: Option<nat>, len: nat, n: nat): Option<nat>
    requires len > 0
    decreases n
  {
    if n == 0 then selected else NextTimes(NextIndex(selected, len), len, n - 1)
  }

  /** The selection after `n` calls of `previous` on a non-empty table. */
  function PreviousTimes(selected: Option<nat>, len: nat, n: nat): Option<nat>
    requires len > 0
    decreases n
  {
    if n == 0 then selected else PreviousTimes(PreviousIndex(selected, len), len, n - 1)
  }

  /** Euclidean remainder is unchanged by adding one multiple of the divisor. */
  lemma ModShift(x: int, m: int)
    requires m > 0
    ensures (x + m) % m == x % m
  {
    var q, r := x / m, x % m;
    assert x == q * m + r;
    assert x + m == (q + 1) * m + r;
    ModUnique(x + m, m, q + 1, r);
  }

  /** The Euclidean remainder is the only `r` in `[0, m)` with `x == q * m + r`. */
  lemma ModUnique(x: int, m: int, q: int, r: int)
    requires m > 0 && 0 <= r < m && x == q * m + r
    ensures x % m == r
  {
    var q', r' := x / m, x % m;
    assert x == q' * m + r';
    var d := q - q';
    assert d * m == r' - r;
    if d > 0 {
      MulAtLeast(d, m);
    } else if d < 0 {
      MulAtLeast(-d, m);
    }
  }

  /** A positive multiple of `m` is at least `m`. */
  lemma MulAtLeast(d: int, m: int)
    requires d >= 1 && m > 0
    ensures d * m >= m
  {
    assert d * m == (d - 1) * m + m;
    assert (d - 1) * m >= 0;
  }

  /** Moving to the next row and back again returns to the starting row. */
  lemma PreviousUndoesNext(i: nat, len: nat)
    requires i < len
    ensures PreviousIndex(NextIndex(Some(i), len), len) == Some(i)
  {
  }

  /** Moving to the previous row and forward again returns to the starting row. */
  lemma NextUndoesPrevious(i: nat, len: nat)
    requires i < len
    ensures NextIndex(PreviousIndex(Some(i), len), len) == Some(i)
  {
  }

  /** `n` calls of `next` from row `i` land on row `(i + n) mod len`. */
  lemma {:induction false} NextTimesModular(i: nat, len: nat, n: nat)
    requires i < len
    ensures NextTimes(Some(i), len, n) == Some((i + n) % len)
    decreases n
  {
    if n == 0 {
      ModUnique(i, len, 0, i);
    } else if i == len - 1 {
      assert NextIndex(Some(i), len) == Some(0);
      NextTimesModular(0, len, n - 1);
      ModShift(n - 1, len);
    } else {
      assert NextIndex(Some(i), len) == Some(i + 1);
      NextTimesModular(i + 1, len, n - 1);
    }
  }

  /** `n` calls of `previous` from row `i` land on row `(i - n) mod len`. */
  lemma {:induction false} PreviousTimesModular(i: nat, len: nat, n: nat)
    requires i < len
    ensures PreviousTimes(Some(i), len, n) == Some((i - n) % len)
    decreases n
  {
    if n == 0 {
      ModUnique(i, len, 0, i);
    } else if i == 0 {
      assert PreviousIndex(Some(i), len) == Some(len - 1);
      PreviousTimesModular(len - 1, len, n - 1);
      ModShift(-(n as int), len);
    } else {
      assert PreviousIndex(Some(i), len) == Some(i - 1);
      PreviousTimesModular(i - 1, len, n - 1);
    }
  }

  /** Calling `next` once per row returns the cursor to where it started. */
  lemma NextCycle(i: nat, len: nat)
    requires i < len
    ensures NextTimes(Some(i), len, len) == Some(i)
  {
    NextTimesModular(i, len, len);
    ModShift(i, len);
    ModUnique(i, len, 0, i);
  }

  /** Calling `previous` once per row returns the cursor to where it started. */
  lemma PreviousCycle(i: nat, len: nat)
    requires i < len
    ensures PreviousTimes(Some(i), len, len) == Some(i)
  {
    PreviousTimesModular(i, len, len);
    ModShift(i - len, len);
    ModUnique(i, len, 0, i);
  }
}
