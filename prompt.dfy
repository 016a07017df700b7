/**
 The prompt object itself: the configuration it was built from, the input
 buffer's content, and the filtered index list and cursor that every key event
 updates in place. Each method is specified by the value-level functions of
 module Selection.
 */
module Prompt {
  import opened Selection

  class SelectPrompt {
    const message: string
    const options: seq<string>
    const helpMessage: Option<string>
    const vimMode: bool
    const pageSize: nat
    const filter: Filter
    const formatter: Formatter
    /** The behaviour of the input buffer that holds the filter text. */
    const handleKey: InputHandler

    /** The input buffer's content: the current filter text. */
    var content: string
    /** Catalog indices of the visible options, in catalog order. */
    var filtered: seq<nat>
    /** Position of the highlighted row within `filtered`. */
    var cursor: nat

    function Environment(): Env
    {
      Env(options, filter, handleKey, vimMode)
    }

    function State(): PromptState
      reads this
    {
      PromptState(filtered, cursor, content)
    }

    ghost predicate Valid()
      reads this
    {
      ValidState(Environment(), State())
    }

    /** The filtered list agrees with the filter text. */
    ghost predicate Synced()
      reads this
    {
      InSync(Environment(), State())
    }

    /** Builds the prompt from a configuration that passed validation: every
        option visible, the cursor on the starting position, an empty filter. */
    constructor (config: Config, inputHandler: InputHandler)
      requires Validate(config.options, config.startingCursor).None?
      ensures message == config.message && options == config.options
      ensures helpMessage == config.helpMessage && pageSize == config.pageSize
      ensures vimMode == config.vimMode && filter == config.filter
      ensures formatter == config.formatter && handleKey == inputHandler
      ensures State() == Initial(config.options, config.startingCursor)
      ensures Valid() && Synced()
    {
      message := config.message;
      options := config.options;
      helpMessage := config.helpMessage;
      vimMode := config.vimMode;
      cursor := config.startingCursor;
      pageSize := config.pageSize;
      content := "";
      filtered := Range(|config.options|);
      filter := config.filter;
      formatter := config.formatter;
      handleKey := inputHandler;
      new;
      EmptyContentShowsAll(options, filter);
    }

    /** Validation followed by construction: a configuration error yields no prompt. */
    static method New(config: Config, inputHandler: InputHandler) returns (r: Result<SelectPrompt, InquireError>)
      ensures r.Failure? <==> Validate(config.options, config.startingCursor).Some?
      ensures r.Failure? ==> r.error == Validate(config.options, config.startingCursor).value
      ensures r.Success? ==> fresh(r.value) && r.value.Valid() && r.value.Synced()
      ensures r.Success? ==> r.value.message == config.message && r.value.helpMessage == config.helpMessage
      ensures r.Success? ==> r.value.pageSize == config.pageSize && r.value.formatter == config.formatter
      ensures r.Success? ==> r.value.Environment() == Env(config.options, config.filter, inputHandler, config.vimMode)
      ensures r.Success? ==> r.value.State() == Initial(config.options, config.startingCursor)
    {
      var problem := Validate(config.options, config.startingCursor);
      if problem.Some? {
        return Failure(problem.value);
      }
      var prompt := new SelectPrompt(config, inputHandler);
      return Success(prompt);
    }

    method MoveCursorUp()
      modifies this`cursor
      ensures cursor == CursorUp(old(cursor), |filtered|)
      ensures old(Valid()) ==> Valid()
    {
      if cursor > 0 {
        cursor := cursor - 1;
      } else if |filtered| > 0 {
        cursor := |filtered| - 1;
      } else {
        cursor := 0;
      }
    }

    method MoveCursorDown()
      modifies this`cursor
      ensures cursor == CursorDown(old(cursor), |filtered|)
      ensures old(Valid()) ==> Valid()
    {
      cursor := cursor + 1;
      if cursor >= |filtered| {
        cursor := 0;
      }
    }

    /** Handles one key that is neither Cancel nor a submission. */
    method OnChange(key: Key)
      modifies this`cursor, this`filtered, this`content
      ensures State() == Step(Environment(), old(State()), key)
      ensures old(Valid()) ==> Valid()
      ensures old(Synced()) && HonestInput(handleKey, old(content), key) ==> Synced()
    {
      if key == Up({}) {
        MoveCursorUp();
      } else if key == Char('k', {}) && vimMode {
        MoveCursorUp();
      } else if key == Down({}) {
        MoveCursorDown();
      } else if key == Char('j', {}) && vimMode {
        MoveCursorDown();
      } else {
        var (newContent, dirty) := handleKey(content, key);
        content := newContent;
        if dirty {
          var visible := FilterOptions(options, content, filter);
          if |visible| > 0 && |visible| <= cursor {
            cursor := |visible| - 1;
          }
          filtered := visible;
        }
      }
    }

    /** The answer a submission would return now; reading it changes nothing. */
    function GetFinalAnswer(): (r: Option<Answer>)
      reads this
      ensures r.Some? ==> r.value.index < |options| && r.value.value == options[r.value.index]
      ensures r.Some? ==> cursor < |filtered| && r.value.index == filtered[cursor]
      ensures Valid() ==> (r.Some? <==> filtered != [])
    {
      Resolve(options, filtered, cursor)
    }

    /** The option rows drawn below the prompt line, before pagination. */
    function Rows(): (rows: seq<Answer>)
      reads this
      requires forall k :: 0 <= k < |filtered| ==> filtered[k] < |options|
      ensures |rows| == |filtered|
      ensures cursor < |rows| ==> GetFinalAnswer() == Some(rows[cursor])
    {
      Choices(options, filtered)
    }

    /** The interaction loop, fed the keys in `keys` one per iteration. */
    method Prompt(keys: seq<Key>) returns (r: Result<Answer, InquireError>)
      requires Valid()
      modifies this`cursor, this`filtered, this`content
      ensures r == Run(Environment(), old(State()), keys)
      ensures Valid()
    {
      var i := 0;
      while i < |keys|
        invariant i <= |keys|
        invariant Valid()
        invariant Run(Environment(), State(), keys[i..]) == Run(Environment(), old(State()), keys)
      {
        // Rendering builds the row list; the invariant keeps its lookups in range.
        var rows := Rows();
        var key := keys[i];
        assert keys[i..][1..] == keys[i + 1..];
        if key == Cancel {
          return Failure(OperationCanceled);
        } else if key == Submit || key == Char(' ', {}) {
          var answer := GetFinalAnswer();
          if answer.Some? {
            return Success(answer.value);
          }
        } else {
          OnChange(key);
        }
        i := i + 1;
      }
      return Failure(Io);
    }
  }
}
