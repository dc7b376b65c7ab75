/** The selection rules of the demo's start-up menu (chatbot_demo.py:117-209):
    which model a typed answer picks, which loop a typed answer runs, and the
    token budget that goes with a model. An answer is `None` when reading it
    hit end of input or an interrupt. */
module Menu {
  import opened Text

  /** One entry of the model table. */
  datatype ModelInfo = ModelInfo(name: string, path: string, description: string, maxLen: nat)

  /** The model table, keyed by the answer that selects each entry. */
  const Models: map<string, ModelInfo> := map[
    "1" := ModelInfo("facebook/opt-125m", "facebook/opt-125m",
                     "OPT-125M (125M params) - Very fast, basic quality", 512),
    "2" := ModelInfo("Qwen2.5-1.5B-Instruct", "/home/sameer/git/LLMs/Qwen2.5-1.5B-Instruct",
                     "Qwen2.5-1.5B (1.5B params) - Better quality, moderate speed", 2048),
    "3" := ModelInfo("SmolLM-1.7B-Instruct", "/home/sameer/git/LLMs/SmolLM-1.7B-Instruct",
                     "SmolLM-1.7B (1.7B params) - Good quality, moderate speed", 2048)
  ]

  /** The key the menu falls back to. */
  const DefaultKey: string := "1"

  /** The name of the one model that gets the small token budget. */
  const SmallModel: string := "facebook/opt-125m"

  /** The key a model answer resolves to, and the answer the demo reports as
      invalid, if any. */
  datatype ModelChoice = ModelChoice(key: string, invalid: Option<string>)

  /** The menu's model rule: the stripped answer when it is a key of the table,
      otherwise the default; a non-empty answer that is not a key is reported. */
  function ChooseModel(answer: Option<string>): (c: ModelChoice)
    ensures c.key in Models
    ensures answer.Some? && Strip(answer.value) in Models ==> c.key == Strip(answer.value)
    ensures answer.None? || Strip(answer.value) !in Models ==> c.key == DefaultKey
    ensures c.invalid.Some? <==> answer.Some? && Strip(answer.value) != "" && Strip(answer.value) !in Models
    ensures c.invalid.Some? ==> c.invalid.value == Strip(answer.value)
  {
    var choice := if answer.None? then DefaultKey else Strip(answer.value);
    if choice in Models then ModelChoice(choice, None)
    else if choice != "" then ModelChoice(DefaultKey, Some(choice))
    else ModelChoice(DefaultKey, None)
  }

  /** Answering with the key that was chosen chooses it again, and reports nothing. */
  lemma ChooseModelStable(answer: Option<string>)
    ensures var key := ChooseModel(answer).key;
      ChooseModel(Some(key)) == ModelChoice(key, None)
  {
    var key := ChooseModel(answer).key;
    assert key == "1" || key == "2" || key == "3";
    StripStripped(key);
  }

  /** The model answer is stripped first, so whitespace around it never changes
      what it selects or what is reported. */
  lemma ModelChoiceIgnoresSpaces(answer: string)
    ensures ChooseModel(Some(answer)) == ChooseModel(Some(Strip(answer)))
  {
    StripIdempotent(answer);
  }

  /** The mode answer is stripped first, so whitespace around it never changes
      what it selects or what is reported. */
  lemma ModeChoiceIgnoresSpaces(answer: string)
    ensures ChooseMode(Some(answer)) == ChooseMode(Some(Strip(answer)))
  {
    StripIdempotent(answer);
  }

  /** `max_tokens`: 512 for the small model, 1024 for every other. */
  function MaxTokens(name: string): (n: nat)
    ensures n == 512 <==> name == SmallModel
    ensures n == 1024 <==> name != SmallModel
  {
    if name == SmallModel then 512 else 1024
  }

  /** The token budget of every model in the table fits its context length,
      and only the default entry gets the small budget. */
  lemma TokensFitContext(key: string)
    requires key in Models
    ensures MaxTokens(Models[key].name) <= Models[key].maxLen
    ensures MaxTokens(Models[key].name) == 512 <==> key == DefaultKey
  {
    assert Models["2"].name != SmallModel;
    assert Models["3"].name != SmallModel;
  }

  /** Which loop the demo runs. */
  datatype Mode = Canned | Interactive

  /** The loop a mode answer resolves to, and the answer reported as invalid, if any. */
  datatype ModeChoice = ModeChoice(mode: Mode, invalid: Option<string>)

  /** The menu's mode rule: only the stripped answer "2" runs the interactive
      loop; anything else runs the canned one, and a non-empty answer other
      than "1" is reported. */
  function ChooseMode(answer: Option<string>): (c: ModeChoice)
    ensures c.mode == Interactive <==> answer.Some? && Strip(answer.value) == "2"
    ensures c.invalid.Some? <==> answer.Some? && Strip(answer.value) !in {"", "1", "2"}
    ensures c.invalid.Some? ==> c.invalid.value == Strip(answer.value)
  {
    var choice := if answer.None? then "1" else Strip(answer.value);
    if choice == "2" then ModeChoice(Interactive, None)
    else if choice != "" && choice != "1" then ModeChoice(Canned, Some(choice))
    else ModeChoice(Canned, None)
  }
}
