/**
 Concrete runs of the state machine on small catalogs.
 */
module Scenarios {
  import opened Selection

  function Fruits(): seq<string>
  {
    ["Banana", "Apple", "Strawberry"]
  }

  /** One move down over the three visible fruits, as `Step` performs it. */
  lemma FruitDown(env: Env, cursor: nat)
    requires env.options == Fruits()
    ensures Step(env, PromptState([0, 1, 2], cursor, ""), Down({})) == PromptState([0, 1, 2], CursorDown(cursor, 3), "")
  {
  }

  /** Right after construction all three fruits are visible and the first is highlighted. */
  lemma FruitStart()
    ensures Initial(Fruits(), 0) == PromptState([0, 1, 2], 0, "")
  {
    assert Range(3) == [0, 1, 2];
  }

  /** Two moves down reach "Strawberry", a third wraps to "Banana", and
      submitting returns it, whatever the filter and input buffer are. */
  lemma WrapAroundThenSubmit(filter: Filter, handleKey: InputHandler, vimMode: bool)
    ensures var env := Env(Fruits(), filter, handleKey, vimMode);
      Run(env, Initial(Fruits(), 0), [Down({}), Down({}), Down({}), Submit]) == Success(Answer(0, "Banana"))
  {
    var env := Env(Fruits(), filter, handleKey, vimMode);
    var s0 := PromptState([0, 1, 2], 0, "");
    FruitStart();
    FruitDown(env, 0);
    FruitDown(env, 1);
    FruitDown(env, 2);
    var s2 := PromptState([0, 1, 2], 2, "");
    assert Resolve(Fruits(), s2.filtered, s2.cursor) == Some(Answer(2, "Strawberry"));
    OtherKeysStep(env, s2, Down({}), [Submit]);
    OtherKeysStep(env, PromptState([0, 1, 2], 1, ""), Down({}), [Down({}), Submit]);
    OtherKeysStep(env, s0, Down({}), [Down({}), Down({}), Submit]);
  }

  /** Typing the filter text "ap" leaves only "Apple" visible, the cursor is
      clamped onto it from wherever it was, and submitting returns it. */
  lemma FilterNarrowsToOne(filter: Filter, handleKey: InputHandler, s: PromptState, key: Key)
    requires !filter("ap", "Banana", 0) && filter("ap", "Apple", 1)
    requires Classify(key, false) == ToInput
    requires handleKey(s.content, key) == ("ap", true)
    ensures var env := Env(["Banana", "Apple"], filter, handleKey, false);
      && Step(env, s, key) == PromptState([1], 0, "ap")
      && Run(env, Step(env, s, key), [Submit]) == Success(Answer(1, "Apple"))
  {
  }
}
