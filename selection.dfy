/**
 The selection state machine behind the single-choice Select prompt, stated
 on values: the option catalog, the filtered index list and the cursor, the
 operations that rewrite them on each key event, and the resolution of the
 final answer. The class in prompt.dfy updates the same state in place and is
 specified by the functions below.
 */
module Selection {

  datatype Option<+T> = None | Some(value: T)

  datatype Result<+T, +E> = Success(value: T) | Failure(error: E)

  /** Keyboard modifiers carried by a decoded key event; the empty set is "no modifier". */
  datatype Modifier = Shift | Control | Alt

  type KeyModifiers = set<Modifier>

  /** A decoded key event. `Other` stands for every further key the terminal
      decodes (Backspace, Delete, arrows other than up and down, ...): the
      selection logic only forwards those to the input buffer. */
  datatype Key =
    | Up(mods: KeyModifiers)
    | Down(mods: KeyModifiers)
    | Char(c: char, mods: KeyModifiers)
    | Submit
    | Cancel
    | Other(code: nat)

  /** The answer: the option's index in the catalog and its label. */
  datatype Answer = Answer(index: nat, value: string)

  datatype ConfigProblem =
    | EmptyOptions
    | CursorOutOfBounds(startingCursor: nat, length: nat)

  /** `Io` stands for a failure of the terminal while reading the next key. */
  datatype InquireError =
    | InvalidConfiguration(problem: ConfigProblem)
    | OperationCanceled
    | Io

  /** Decides whether an option stays visible: (filter text, label, index). */
  type Filter = (string, string, nat) -> bool

  /** Renders the final answer for the last line of the prompt. */
  type Formatter = Answer -> string

  /** The text input buffer holding the filter text: given its content and a
      key, the new content and whether the key changed it ("dirty"). */
  type InputHandler = (string, Key) -> (string, bool)

  /** The configuration a prompt is built from. */
  datatype Config = Config(
    message: string,
    options: seq<string>,
    helpMessage: Option<string>,
    pageSize: nat,
    vimMode: bool,
    startingCursor: nat,
    filter: Filter,
    formatter: Formatter)

  /** What the state machine reads but never changes. */
  datatype Env = Env(
    options: seq<string>,
    filter: Filter,
    handleKey: InputHandler,
    vimMode: bool)

  /** What the state machine changes: the filtered index list, the cursor
      (an index into `filtered`, not into the catalog) and the filter text. */
  datatype PromptState = PromptState(filtered: seq<nat>, cursor: nat, content: string)

  // ---------------------------------------------------------------------------
  // Construction

  /** The checks of `SelectPrompt::new`, which looks at emptiness first: the
      empty catalog is reported before the starting cursor is looked at. */
  function Validate(options: seq<string>, startingCursor: nat): (r: Option<InquireError>)
    ensures r.None? <==> startingCursor < |options|
    ensures r.Some? ==> r.value.InvalidConfiguration?
    ensures |options| == 0 ==> r == Some(InvalidConfiguration(EmptyOptions))
  {
    if |options| == 0 then
      Some(InvalidConfiguration(EmptyOptions))
    else if startingCursor >= |options| then
      Some(InvalidConfiguration(CursorOutOfBounds(startingCursor, |options|)))
    else
      None
  }

  /** The indices 0, 1, ..., n - 1 in order. */
  function Range(n: nat): (r: seq<nat>)
    ensures |r| == n
    ensures forall k :: 0 <= k < n ==> r[k] == k
  {
    seq(n, k requires 0 <= k => k)
  }

  /** The state right after construction: every option visible, empty filter text. */
  function Initial(options: seq<string>, startingCursor: nat): PromptState
  {
    PromptState(Range(|options|), startingCursor, "")
  }

  // ---------------------------------------------------------------------------
  // Invariants

  ghost predicate StrictlyIncreasing(s: seq<nat>)
  {
    forall a, b :: 0 <= a < b < |s| ==> s[a] < s[b]
  }

  /** The invariant of the state machine: every filtered entry names a catalog
      option, and a non-empty filtered list has the cursor inside it. */
  ghost predicate ValidState(env: Env, s: PromptState)
  {
    && (forall k :: 0 <= k < |s.filtered| ==> s.filtered[k] < |env.options|)
    && (|s.filtered| > 0 ==> s.cursor < |s.filtered|)
  }

  /** The filtered list is the filter applied to the current filter text. */
  ghost predicate InSync(env: Env, s: PromptState)
  {
    s.filtered == FilterOptions(env.options, s.content, env.filter)
  }

  /** The input buffer reports a key as not dirty only when its content stayed the same. */
  ghost predicate HonestInput(handleKey: InputHandler, content: string, key: Key)
  {
    handleKey(content, key).1 || handleKey(content, key).0 == content
  }

  // ---------------------------------------------------------------------------
  // Filter recomputation

  /** Option `i` is visible under filter text `content`: an empty text shows
      everything without consulting the predicate. */
  predicate Matches(options: seq<string>, content: string, filter: Filter, i: nat)
    requires i < |options|
    ensures content == [] ==> Matches(options, content, filter, i)
    ensures content != [] ==> (Matches(options, content, filter, i) <==> filter(content, options[i], i))
  {
    content == [] || filter(content, options[i], i)
  }

  /** The visible indices among i, i + 1, ..., |options| - 1, in catalog order. */
  function FilterFrom(options: seq<string>, content: string, filter: Filter, i: nat): (r: seq<nat>)
    requires i <= |options|
    ensures forall k :: 0 <= k < |r| ==> i <= r[k] < |options|
    ensures StrictlyIncreasing(r)
    ensures forall j :: i <= j < |options| ==> (j in r <==> Matches(options, content, filter, j))
    decreases |options| - i
  {
    if i == |options| then []
    else if Matches(options, content, filter, i) then [i] + FilterFrom(options, content, filter, i + 1)
    else FilterFrom(options, content, filter, i + 1)
  }

  /** The filtered index list for filter text `content`. */
  function FilterOptions(options: seq<string>, content: string, filter: Filter): (r: seq<nat>)
    ensures forall k :: 0 <= k < |r| ==> r[k] < |options|
    ensures StrictlyIncreasing(r)
    ensures forall j :: 0 <= j < |options| ==> (j in r <==> Matches(options, content, filter, j))
  {
    FilterFrom(options, content, filter, 0)
  }

  /** Two strictly increasing sequences with the same elements are equal. */
  lemma {:induction false} SortedUnique(a: seq<nat>, b: seq<nat>)
    requires StrictlyIncreasing(a) && StrictlyIncreasing(b)
    requires forall x :: x in a <==> x in b
    ensures a == b
    decreases |a|
  {
    if |a| > 0 {
      assert a[0] in b;
    }
    if |b| > 0 {
      assert b[0] in a;
    }
    if |a| > 0 && |b| > 0 {
      var j :| 0 <= j < |b| && b[j] == a[0];
      var i :| 0 <= i < |a| && a[i] == b[0];
      assert a[0] == b[0] by {
        assert b[0] <= b[j];
        assert a[0] <= a[i];
      }
      forall x
        ensures x in a[1..] <==> x in b[1..]
      {
        if x in a[1..] {
          var p :| 1 <= p < |a| && a[p] == x;
          assert x in b && x != b[0];
          var q :| 0 <= q < |b| && b[q] == x;
          assert q != 0;
          assert b[1..][q - 1] == x;
        }
        if x in b[1..] {
          var q :| 1 <= q < |b| && b[q] == x;
          assert x in a && x != a[0];
          var p :| 0 <= p < |a| && a[p] == x;
          assert p != 0;
          assert a[1..][p - 1] == x;
        }
      }
      SortedUnique(a[1..], b[1..]);
      assert a == [a[0]] + a[1..];
      assert b == [b[0]] + b[1..];
    }
  }

  /** The filtered list is the one strictly increasing enumeration of exactly
      the matching catalog indices. */
  lemma FilterOptionsIsSortedMatchSet(options: seq<string>, content: string, filter: Filter, r: seq<nat>)
    requires StrictlyIncreasing(r)
    requires forall x: nat :: x in r <==> x < |options| && Matches(options, content, filter, x)
    ensures r == FilterOptions(options, content, filter)
  {
    var f := FilterOptions(options, content, filter);
    forall x
      ensures x in r <==> x in f
    {
      if x in f {
        var k :| 0 <= k < |f| && f[k] == x;
      }
    }
    SortedUnique(r, f);
  }

  /** With empty filter text every option is visible, whatever the predicate says. */
  lemma EmptyContentShowsAll(options: seq<string>, filter: Filter)
    ensures FilterOptions(options, "", filter) == Range(|options|)
  {
    var r := Range(|options|);
    forall x: nat
      ensures x in r <==> x < |options| && Matches(options, "", filter, x)
    {
      if x < |options| {
        assert r[x] == x;
      }
    }
    FilterOptionsIsSortedMatchSet(options, "", filter, r);
  }

  // ---------------------------------------------------------------------------
  // Cursor navigation over a filtered list of length `len`

  /** Circular decrement; on an empty list a positive cursor still decreases and 0 stays 0. */
  function CursorUp(cursor: nat, len: nat): (r: nat)
    ensures cursor < len ==> r < len
    ensures len == 0 ==> r == if cursor > 0 then cursor - 1 else 0
  {
    if cursor > 0 then cursor - 1
    else if len > 0 then len - 1
    else 0
  }

  /** Circular increment; it lands in range for any non-empty list, and on 0 for an empty one. */
  function CursorDown(cursor: nat, len: nat): (r: nat)
    ensures len > 0 ==> r < len
    ensures len == 0 ==> r == 0
  {
    if cursor + 1 >= len then 0 else cursor + 1
  }

  /** After a recomputation leaves `len` visible rows, a cursor past the end
      moves to the last row; an empty list leaves the cursor alone. */
  function ClampCursor(cursor: nat, len: nat): (r: nat)
    ensures len > 0 ==> r < len
    ensures cursor < len || len == 0 ==> r == cursor
    ensures 0 < len <= cursor ==> r == len - 1
  {
    if 0 < len && len <= cursor then len - 1 else cursor
  }

  /** Up and down undo each other on a cursor in range. */
  lemma UpDownInverse(cursor: nat, len: nat)
    requires cursor < len
    ensures CursorUp(CursorDown(cursor, len), len) == cursor
    ensures CursorDown(CursorUp(cursor, len), len) == cursor
  {
  }

  /** The cursor after `k` moves down. */
  function DownTimes(cursor: nat, len: nat, k: nat): nat
    decreases k
  {
    if k == 0 then cursor else DownTimes(CursorDown(cursor, len), len, k - 1)
  }

  /** The cursor after `k` moves up. */
  function UpTimes(cursor: nat, len: nat, k: nat): nat
    decreases k
  {
    if k == 0 then cursor else UpTimes(CursorUp(cursor, len), len, k - 1)
  }

  lemma MulAtLeast(n: int, d: int)
    requires n > 0
    ensures d >= 1 ==> n * d >= n
    ensures d <= -1 ==> n * d <= -n
  {
  }

  /** Adding the period does not change the remainder. */
  lemma ModShift(x: int, n: int)
    requires n > 0
    ensures (x + n) % n == x % n
  {
    var d := (x + n) / n - x / n - 1;
    assert n * d == x % n - (x + n) % n;
    MulAtLeast(n, d);
  }

  /** A remainder of a value already below the modulus is that value. */
  lemma ModSmall(x: int, n: int)
    requires 0 <= x < n
    ensures x % n == x
  {
  }

  /** Moving down is rotation by one over the visible rows. */
  lemma {:induction false} DownTimesRotates(cursor: nat, len: nat, k: nat)
    requires cursor < len
    ensures DownTimes(cursor, len, k) == (cursor + k) % len
    decreases k
  {
    if k > 0 {
      var next := CursorDown(cursor, len);
      DownTimesRotates(next, len, k - 1);
      if cursor + 1 == len {
        ModShift(k - 1, len);
      }
    }
  }

  /** Moving up is rotation by one the other way (`%` is the non-negative remainder). */
  lemma {:induction false} UpTimesRotates(cursor: nat, len: nat, k: nat)
    requires cursor < len
    ensures UpTimes(cursor, len, k) == (cursor - k) % len
    decreases k
  {
    if k > 0 {
      var next := CursorUp(cursor, len);
      UpTimesRotates(next, len, k - 1);
      if cursor == 0 {
        ModShift(-(k as int), len);
      }
    }
  }

  /** A full round of moves in either direction comes back to the starting row. */
  lemma FullCycle(cursor: nat, len: nat)
    requires cursor < len
    ensures DownTimes(cursor, len, len) == cursor
    ensures UpTimes(cursor, len, len) == cursor
  {
    DownTimesRotates(cursor, len, len);
    UpTimesRotates(cursor, len, len);
    ModShift(cursor, len);
    ModShift(cursor as int - len, len);
    ModSmall(cursor, len);
  }

  // ---------------------------------------------------------------------------
  // Key dispatch

  datatype Action = MoveUp | MoveDown | ToInput

  /** How a key reaching the state machine is handled: the arrows without a
      modifier navigate, so do `k` and `j` without a modifier in vim mode, and
      everything else goes to the input buffer. */
  function Classify(key: Key, vimMode: bool): (r: Action)
    ensures r != ToInput ==> (key.Up? || key.Down? || key.Char?) && key.mods == {}
    ensures key.Char? && r != ToInput ==> vimMode && (key.c == 'k' || key.c == 'j')
    ensures key == Up({}) ==> r == MoveUp
    ensures key == Down({}) ==> r == MoveDown
    ensures r == MoveUp ==> key.Up? || key.c == 'k'
    ensures r == MoveDown ==> key.Down? || key.c == 'j'
  {
    match key
    case Up(m) => if m == {} then MoveUp else ToInput
    case Down(m) => if m == {} then MoveDown else ToInput
    case Char(c, m) =>
      if vimMode && m == {} && c == 'k' then MoveUp
      else if vimMode && m == {} && c == 'j' then MoveDown
      else ToInput
    case _ => ToInput
  }

  /** One key event handled by the state machine. */
  function Step(env: Env, s: PromptState, key: Key): (t: PromptState)
    ensures ValidState(env, s) ==> ValidState(env, t)
    ensures InSync(env, s) && HonestInput(env.handleKey, s.content, key) ==> InSync(env, t)
    ensures t.filtered == s.filtered || t.filtered == FilterOptions(env.options, t.content, env.filter)
    ensures t.filtered != s.filtered ==> t.cursor == ClampCursor(s.cursor, |t.filtered|)
  {
    match Classify(key, env.vimMode)
    case MoveUp => s.(cursor := CursorUp(s.cursor, |s.filtered|))
    case MoveDown => s.(cursor := CursorDown(s.cursor, |s.filtered|))
    case ToInput =>
      var (content, dirty) := env.handleKey(s.content, key);
      if dirty then
        var options := FilterOptions(env.options, content, env.filter);
        PromptState(options, ClampCursor(s.cursor, |options|), content)
      else
        s.(content := content)
  }

  /** Navigation keys move only the cursor. */
  lemma NavigationMovesOnlyCursor(env: Env, s: PromptState, key: Key)
    requires Classify(key, env.vimMode) != ToInput
    ensures Step(env, s, key).filtered == s.filtered
    ensures Step(env, s, key).content == s.content
    ensures Step(env, s, key).cursor ==
      if Classify(key, env.vimMode) == MoveUp then CursorUp(s.cursor, |s.filtered|)
      else CursorDown(s.cursor, |s.filtered|)
  {
  }

  /** `k` and `j` navigate only in vim mode; otherwise they are typed into the filter. */
  lemma VimKeys(env: Env, c: char)
    requires c == 'k' || c == 'j'
    ensures Classify(Char(c, {}), env.vimMode) == (if !env.vimMode then ToInput else if c == 'k' then MoveUp else MoveDown)
  {
  }

  /** A key the input buffer reports as not dirty leaves the list and the cursor as they were. */
  lemma CleanEditKeepsSelection(env: Env, s: PromptState, key: Key)
    requires Classify(key, env.vimMode) == ToInput
    requires !env.handleKey(s.content, key).1
    ensures Step(env, s, key).filtered == s.filtered
    ensures Step(env, s, key).cursor == s.cursor
  {
  }

  /** A dirty edit installs the recomputed list and clamps the cursor into it;
      one that hides every option leaves the cursor where it was. */
  lemma DirtyEditRefilters(env: Env, s: PromptState, key: Key)
    requires Classify(key, env.vimMode) == ToInput
    requires env.handleKey(s.content, key).1
    ensures var t := Step(env, s, key);
      && t.content == env.handleKey(s.content, key).0
      && t.filtered == FilterOptions(env.options, t.content, env.filter)
      && (t.filtered == [] ==> t.cursor == s.cursor)
      && (t.filtered != [] ==> t.cursor < |t.filtered|)
      && (s.cursor < |t.filtered| ==> t.cursor == s.cursor)
      && (0 < |t.filtered| <= s.cursor ==> t.cursor == |t.filtered| - 1)
  {
  }

  // ---------------------------------------------------------------------------
  // Answer resolution and the row list

  /** The option under the cursor, if the cursor points into the filtered list
      and that entry names a catalog option. */
  function Resolve(options: seq<string>, filtered: seq<nat>, cursor: nat): (r: Option<Answer>)
    ensures r.Some? <==> cursor < |filtered| && filtered[cursor] < |options|
    ensures r.Some? ==> r.value.index == filtered[cursor] && r.value.index < |options|
    ensures r.Some? ==> r.value.value == options[r.value.index]
  {
    if cursor < |filtered| && filtered[cursor] < |options| then
      Some(Answer(filtered[cursor], options[filtered[cursor]]))
    else
      None
  }

  /** Under the invariant an answer exists exactly when some option is visible. */
  lemma ResolveUnderInvariant(env: Env, s: PromptState)
    requires ValidState(env, s)
    ensures Resolve(env.options, s.filtered, s.cursor).Some? <==> s.filtered != []
  {
  }

  /** An answer taken from a synchronised state matches the current filter text. */
  lemma ResolveMatchesFilter(env: Env, s: PromptState)
    requires InSync(env, s)
    requires Resolve(env.options, s.filtered, s.cursor).Some?
    ensures Matches(env.options, s.content, env.filter, Resolve(env.options, s.filtered, s.cursor).value.index)
  {
  }

  /** The rows shown to the user: each filtered index with its label, in order.
      Looking a label up is the `unwrap` in `render`, hence the requirement. */
  function Choices(options: seq<string>, filtered: seq<nat>): (rows: seq<Answer>)
    requires forall k :: 0 <= k < |filtered| ==> filtered[k] < |options|
    ensures |rows| == |filtered|
    ensures forall k :: 0 <= k < |rows| ==> rows[k] == Answer(filtered[k], options[filtered[k]])
  {
    seq(|filtered|, k requires 0 <= k < |filtered| => Answer(filtered[k], options[filtered[k]]))
  }

  /** The row under the cursor is the answer a submission returns, and rows
      appear in catalog order. */
  lemma HighlightedRowIsAnswer(env: Env, s: PromptState)
    requires ValidState(env, s)
    requires InSync(env, s)
    ensures var rows := Choices(env.options, s.filtered);
      && (s.cursor < |rows| ==> Resolve(env.options, s.filtered, s.cursor) == Some(rows[s.cursor]))
      && (forall a, b :: 0 <= a < b < |rows| ==> rows[a].index < rows[b].index)
  {
  }

  // ---------------------------------------------------------------------------
  // The prompt loop

  /** Submission keys: Submit, or a space without a modifier. */
  predicate IsSubmit(key: Key)
    ensures IsSubmit(key) ==> key == Submit || (key.Char? && key.c == ' ' && key.mods == {})
    ensures Classify(key, true) != ToInput ==> !IsSubmit(key)
  {
    key == Submit || key == Char(' ', {})
  }

  /** The prompt loop fed the keys `keys` in order: Cancel ends it with
      OperationCanceled, a submission ends it with the answer when there is
      one and is otherwise ignored, every other key goes to Step. Running out
      of keys stands for the terminal failing to deliver one. */
  function Run(env: Env, s: PromptState, keys: seq<Key>): (r: Result<Answer, InquireError>)
    requires ValidState(env, s)
    ensures r.Success? ==> r.value.index < |env.options| && r.value.value == env.options[r.value.index]
    ensures r.Failure? ==> r.error == OperationCanceled || r.error == Io
    decreases |keys|
  {
    if keys == [] then Failure(Io)
    else if keys[0] == Cancel then Failure(OperationCanceled)
    else if IsSubmit(keys[0]) then
      match Resolve(env.options, s.filtered, s.cursor)
      case Some(answer) => Success(answer)
      case None => Run(env, s, keys[1..])
    else Run(env, Step(env, s, keys[0]), keys[1..])
  }

  /** A submission with nothing to resolve is ignored: the loop goes on from the same state. */
  lemma SubmitWithoutAnswerIgnored(env: Env, s: PromptState, key: Key, rest: seq<Key>)
    requires ValidState(env, s)
    requires IsSubmit(key)
    requires Resolve(env.options, s.filtered, s.cursor).None?
    ensures Run(env, s, [key] + rest) == Run(env, s, rest)
  {
  }

  /** Under the invariant a submission ends the loop exactly when an option is
      visible, with the option under the cursor. */
  lemma SubmitAnswers(env: Env, s: PromptState, key: Key, rest: seq<Key>)
    requires ValidState(env, s)
    requires IsSubmit(key)
    requires s.filtered != []
    ensures Run(env, s, [key] + rest) == Success(Answer(s.filtered[s.cursor], env.options[s.filtered[s.cursor]]))
  {
  }

  /** Cancel ends the loop with OperationCanceled, whatever the state and the keys after it. */
  lemma CancelEndsLoop(env: Env, s: PromptState, rest: seq<Key>)
    requires ValidState(env, s)
    ensures Run(env, s, [Cancel] + rest) == Failure(OperationCanceled)
  {
  }

  /** Every key other than Cancel and a submission goes to Step, and the loop goes on. */
  lemma OtherKeysStep(env: Env, s: PromptState, key: Key, rest: seq<Key>)
    requires ValidState(env, s)
    requires key != Cancel && !IsSubmit(key)
    ensures Run(env, s, [key] + rest) == Run(env, Step(env, s, key), rest)
  {
    assert ([key] + rest)[1..] == rest;
  }
}
