# Select prompt selection state machine

A model of the state machine behind the single-choice `Select` prompt of the
inquire terminal-prompt library (the private `SelectPrompt` struct in
`src/prompts/select.rs`). The prompt shows a list of labelled options, lets
the user narrow it by typing a filter text, moves a highlighted row up and
down with wrap-around, and returns the chosen option's catalog index and label.

The state is three things:

- the option catalog `options`, fixed at construction;
- the filtered index list `filtered`: the catalog indices that match the
  current filter text, in catalog order;
- the cursor `cursor`, an index into `filtered` (not into the catalog).

Files:

- `selection.dfy`, module `Selection`: the value-level model. It holds the
  datatypes (keys with their modifier sets, answers, errors, configuration,
  the state), construction checks, filter recomputation, cursor navigation,
  and key dispatch (`Step`). It also holds answer resolution, the row list,
  and the interaction loop as a function of the key sequence (`Run`). The
  lemmas about all of these are here too.
- `prompt.dfy`, module `Prompt`: class `SelectPrompt`, which updates
  `filtered`, `cursor` and the filter text in place. Every method is proved
  against the functions of `Selection`. The `Prompt` method is the loop that
  reads keys until submit or cancel.
- `scenarios.dfy`, module `Scenarios`: two concrete runs. One is wrap-around
  followed by submit on `["Banana", "Apple", "Strawberry"]`. The other
  narrows `["Banana", "Apple"]` with the filter text `"ap"`.

The invariant `ValidState` says two things. Every entry of `filtered` is a
catalog index, and when `filtered` is non-empty the cursor is inside it.
Construction establishes it. Every navigation and edit preserves it
(`Step`'s contract, and `old(Valid()) ==> Valid()` on each method). It is
what makes the label look-ups when the row list is built safe (`Rows`
requires it), and it makes a submission succeed exactly when some option is
visible (`GetFinalAnswer`, `ResolveUnderInvariant`). A second invariant,
`InSync`, says that `filtered` is the filter applied to the current filter
text. It holds initially, and each key preserves it as long as the input
buffer reports "not dirty" only when its content did not change.

Edge behaviour follows the code. On an empty filtered list, moving down sets
the cursor to 0 (`select.rs:237-239`). Moving up still decrements a positive
cursor. A dirty edit that hides every option leaves the cursor where it was.

External collaborators are parameters:

- the filter predicate is a function value `(text, label, index) -> bool`;
- the formatter is a function value;
- the text input buffer is a function `(content, key) -> (content', dirty)`
  over its content;
- the terminal's key stream is a finite sequence of keys. Running out of keys
  stands for the terminal failing to deliver one (error `Io`).

## Model

| member | source | states |
|---|---|---|
| Selection.Validate | src/prompts/select.rs:187-200 | construction fails with `InvalidConfiguration` exactly when the catalog is empty or the starting cursor is not below its length; an empty catalog is reported as `EmptyOptions` whatever the cursor |
| Prompt.SelectPrompt.New | src/prompts/select.rs:187-213 | returns the validation error and no prompt when validation fails; otherwise a fresh prompt that copies every configuration field (message, options, help message, page size, vim mode, filter, formatter) and the input handler, satisfies both invariants, and whose state is `Initial`: all indices `0..n` visible, cursor at the starting cursor, empty filter text |
| Prompt.SelectPrompt.constructor | src/prompts/select.rs:202-213 | copies the configuration; `filtered` is `[0, 1, ..., n-1]`, the cursor is the starting cursor, the filter text is empty, and `Valid()` and `Synced()` hold |
| Selection.Range | src/prompts/select.rs:210 | the initial list has length `n` and holds `k` at position `k` |
| Selection.Matches | src/prompts/select.rs:220-223 | the visibility test that the membership of `FilterOptions` is stated against: an empty filter text short-circuits to visible, otherwise the predicate decides on (text, label, index) |
| Selection.FilterFrom | src/prompts/select.rs:216-226 | the visible indices from `i` on are in range, strictly increasing, and contain `j` exactly when the filter text is empty or the predicate accepts option `j` |
| Selection.FilterOptions | src/prompts/select.rs:216-226 | the filtered list is a strictly increasing list of catalog indices containing index `j` iff the filter text is empty or `filter(text, options[j], j)` holds |
| Selection.FilterOptionsIsSortedMatchSet | src/prompts/select.rs:216-226 | any strictly increasing sequence holding exactly the matching indices equals the filtered list, so the list is the matching set enumerated in catalog order |
| Selection.EmptyContentShowsAll | src/prompts/select.rs:220-221 | with an empty filter text the filtered list is exactly `0..n`, whatever the predicate does |
| Selection.CursorUp | src/prompts/select.rs:228-234 | moving up keeps an in-range cursor in range; on an empty list a positive cursor decreases by one and 0 stays 0 |
| Selection.CursorDown | src/prompts/select.rs:236-241 | moving down lands in range on any non-empty list, from any cursor, and lands on 0 on an empty list |
| Selection.UpDownInverse | src/prompts/select.rs:228-241 | on an in-range cursor, up undoes down and down undoes up |
| Selection.DownTimesRotates | src/prompts/select.rs:236-241 | `k` moves down from an in-range cursor `c` reach `(c + k) mod len`: rotation over the visible rows |
| Selection.UpTimesRotates | src/prompts/select.rs:228-234 | `k` moves up from an in-range cursor `c` reach `(c - k) mod len` |
| Selection.FullCycle | src/prompts/select.rs:228-241 | `len` moves in either direction return to the starting row; for `len = 1` both moves are no-ops |
| Selection.ClampCursor | src/prompts/select.rs:254-256 | after a recomputation the cursor is in range when the list is non-empty; it is unchanged when already in range or when the list is empty; a cursor past the end goes to the last row |
| Prompt.SelectPrompt.MoveCursorUp | src/prompts/select.rs:228-234 | the cursor becomes `CursorUp(cursor, len)`, the list is untouched, and the invariant is preserved |
| Prompt.SelectPrompt.MoveCursorDown | src/prompts/select.rs:236-241 | the cursor becomes `CursorDown(cursor, len)`, the list is untouched, and the invariant is preserved |
| Selection.Classify | src/prompts/select.rs:244-249 | only Up, Down and (in vim mode) `k`/`j`, each without a modifier, navigate; `k` and Up move up, `j` and Down move down; every other key goes to the input buffer |
| Selection.Step | src/prompts/select.rs:243-261 | one key preserves `ValidState`; it preserves `InSync` when the input buffer is honest about that key; the list afterwards is either the old one or the filter of the new text, and when it was replaced the cursor is `ClampCursor` of the old cursor |
| Selection.NavigationMovesOnlyCursor | src/prompts/select.rs:244-248 | navigation keys change only the cursor, by `CursorUp` or `CursorDown` |
| Selection.VimKeys | src/prompts/select.rs:246-248 | `k`/`j` without a modifier navigate up/down only in vim mode; otherwise they go to the input buffer |
| Selection.CleanEditKeepsSelection | src/prompts/select.rs:249-252 | a key the input buffer reports as not dirty leaves the list and the cursor unchanged |
| Selection.DirtyEditRefilters | src/prompts/select.rs:250-258 | a dirty edit installs the list recomputed from the new text; the cursor is unchanged if the new list is empty or the cursor is already in it, and moves to the last row `len - 1` when it is at or past the end of a non-empty list |
| Prompt.SelectPrompt.OnChange | src/prompts/select.rs:243-261 | the new state is `Step` of the old state and the key; `Valid()` is preserved; `Synced()` is preserved when the input buffer is honest about the key |
| Selection.Resolve | src/prompts/select.rs:263-267 | an answer exists iff the cursor is inside the list and that entry is a catalog index; it is that entry with its label |
| Selection.ResolveUnderInvariant | src/prompts/select.rs:263-267 | under the invariant an answer exists exactly when the filtered list is non-empty |
| Selection.ResolveMatchesFilter | src/prompts/select.rs:216-226 | an answer taken from a synchronised state names an option that matches the current filter text |
| Prompt.SelectPrompt.GetFinalAnswer | src/prompts/select.rs:263-267 | a read of the state: any answer is a catalog entry under the cursor, and under the invariant an answer exists iff the list is non-empty |
| Selection.Choices | src/prompts/select.rs:276-281 | the row list has one row per filtered index, in order, each the index with its label |
| Selection.HighlightedRowIsAnswer | src/prompts/select.rs:276-281 | the row under the cursor is the answer a submission returns, and rows appear in increasing catalog order |
| Prompt.SelectPrompt.Rows | src/prompts/select.rs:276-281 | the row list is defined whenever every filtered index is a catalog index; it has one row per filtered entry, and the row at the cursor is the final answer |
| Selection.IsSubmit | src/prompts/select.rs:308 | a submission is Submit or a space without a modifier; no navigation key, including `k`/`j` in vim mode, is a submission |
| Selection.Run | src/prompts/select.rs:298-317 | from a state satisfying the invariant (which the loop's rendering needs for its `unwrap`), the loop ends with a catalog entry and its label, with `OperationCanceled`, or with `Io`; it never fails with a configuration error |
| Selection.CancelEndsLoop | src/prompts/select.rs:307 | Cancel ends the loop with `OperationCanceled` in every state, whatever keys follow |
| Selection.OtherKeysStep | src/prompts/select.rs:315 | a key that is neither Cancel nor a submission is handed to `Step` and the loop continues from the resulting state |
| Selection.SubmitWithoutAnswerIgnored | src/prompts/select.rs:308-313 | a submission with nothing to resolve leaves the state as it was and the loop continues |
| Selection.SubmitAnswers | src/prompts/select.rs:308-312 | under the invariant a submission on a non-empty list ends the loop with the option under the cursor |
| Prompt.SelectPrompt.Prompt | src/prompts/select.rs:298-317 | the loop returns exactly what `Run` gives for the same keys from the initial state, and keeps `Valid()` throughout |
| Scenarios.WrapAroundThenSubmit | src/prompts/select.rs:236-241 | on `["Banana", "Apple", "Strawberry"]`, three moves down wrap to the first row, and submit returns `(0, "Banana")` |
| Scenarios.FilterNarrowsToOne | src/prompts/select.rs:250-258 | with filter text `"ap"` accepting only `"Apple"`, the list becomes `[1]`, any cursor clamps to 0, and submit returns `(1, "Apple")` |

## Left out

- Terminal I/O is not modelled: creating the terminal and renderer (`select.rs:159-163`), printing the prompt line, rows and help line, flushing, and the final cleanup line (`select.rs:269-296`, `319-321`). These are foreign side effects. The row list they print is modelled (`Rows`, `Choices`).
- Pagination (`paginate`, `select.rs:283-287`) lives in a utility module that is not part of this model. So is the selected-row flag it computes. The page size is carried but never used.
- The formatter is applied to the answer only to print the final line (`select.rs:319`), so it is carried in the configuration and not modelled further.
- The input buffer's internals (`Input::handle_key`, `Input::content`) are not part of this model. The buffer is a function from content and key to new content and a dirty flag. Its other state, such as its own text cursor, is not represented.
- The default filter (case-insensitive substring match) and the default formatter are defined in other modules. Both are parameters here.
- The builder setters and defaults (`select.rs:102-155`) only assign fields and are not modelled.
- The error messages' text is not modelled. A configuration error carries its reason as a value (`EmptyOptions` or `CursorOutOfBounds(index, length)`).
- The key enum is defined in another module. The model keeps the keys this code matches on: Up, Down, Char with modifiers, Submit and Cancel. `Other` stands for every further key, all of which are forwarded to the input buffer.
- Prompt.SelectPrompt.MoveCursorDown: the cursor is a `nat`, so `saturating_add` at `usize::MAX` is not modelled. It cannot be reached with a cursor bounded by the list length.
- Selection.Run: the terminal's key stream is a finite sequence. Any I/O error from rendering or reading is represented only as running out of keys (`Io`).
