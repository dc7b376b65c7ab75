/** The demo's entry point (chatbot_demo.py:117-209): pick a model and its token
    budget, load it, pick a loop and run it. Loading is outside the model: the
    parameter `loads` says whether it succeeded. */
module Demo {
  import opened Text
  import opened Sanitizer
  import opened Transcript
  import opened Session
  import opened Menu

  /** How a run of the demo ends: the model failed to load, or the chosen loop ran. */
  datatype Outcome =
    | LoadFailed(model: ModelInfo)
    | Ran(model: ModelInfo, maxTokens: nat, mode: Mode, trace: Trace)

  /** The whole demo: the model answer, then (when the model loads) the mode
      answer, then the chosen loop over `inputs` with `generate` standing for
      the inference calls. */
  method RunDemo(modelAnswer: Option<string>, loads: bool, modeAnswer: Option<string>,
                 inputs: seq<Option<string>>, generate: nat -> string) returns (outcome: Outcome)
    ensures outcome.model == Models[ChooseModel(modelAnswer).key]
    ensures outcome.LoadFailed? <==> !loads
    ensures outcome.Ran? ==> outcome.maxTokens == MaxTokens(outcome.model.name)
    ensures outcome.Ran? ==> outcome.mode == ChooseMode(modeAnswer).mode
    ensures outcome.Ran? && outcome.mode == Interactive ==>
      outcome.trace == Interact(Start, Commands(inputs), Replies(generate))
    ensures outcome.Ran? && outcome.mode == Canned ==> outcome.trace == Replay(CannedInputs, Replies(generate))
  {
    var model := Models[ChooseModel(modelAnswer).key];
    if !loads {
      return LoadFailed(model);
    }
    var maxTokens := MaxTokens(model.name);
    var mode := ChooseMode(modeAnswer).mode;
    var trace;
    if mode == Interactive {
      trace := RunInteractive(inputs, generate);
    } else {
      trace := RunCanned(CannedInputs, generate);
    }
    outcome := Ran(model, maxTokens, mode, trace);
  }

  /** Whichever loop runs, over whatever is typed, it leaves a well-formed history,
      one reply per call, and reply k is the reply made of call k. */
  lemma {:induction false} LoopsWellBehaved(mode: Mode, inputs: seq<Option<string>>, respond: nat -> string, trace: Trace)
    requires mode == Interactive ==> trace == Interact(Start, Commands(inputs), respond)
    requires mode == Canned ==> trace == Replay(CannedInputs, respond)
    ensures WellFormed(trace.history) && |trace.prompts| == |trace.replies|
    ensures forall k :: 0 <= k < |trace.replies| ==> trace.replies[k] == respond(k)
  {
    if mode == Interactive {
      InteractInvariant(Start, Commands(inputs), respond);
    } else {
      CannedTurns(respond);
    }
  }

  /** Whatever is answered, typed or generated, a demo that ran used a model of
      the table with a budget that fits its context length, and left a
      well-formed history whose every reply is the cleaned text of its own call. */
  lemma DemoWellBehaved(outcome: Outcome, modelAnswer: Option<string>, modeAnswer: Option<string>,
                        inputs: seq<Option<string>>, generate: nat -> string)
    requires outcome.Ran? && outcome.model == Models[ChooseModel(modelAnswer).key]
    requires outcome.maxTokens == MaxTokens(outcome.model.name)
    requires outcome.mode == Interactive ==> outcome.trace == Interact(Start, Commands(inputs), Replies(generate))
    requires outcome.mode == Canned ==> outcome.trace == Replay(CannedInputs, Replies(generate))
    ensures outcome.maxTokens <= outcome.model.maxLen
    ensures WellFormed(outcome.trace.history) && |outcome.trace.prompts| == |outcome.trace.replies|
    ensures forall k :: 0 <= k < |outcome.trace.replies| ==> outcome.trace.replies[k] == Sanitize(generate(k))
  {
    TokensFitContext(ChooseModel(modelAnswer).key);
    var respond := Replies(generate);
    LoopsWellBehaved(outcome.mode, inputs, respond, outcome.trace);
    forall k | 0 <= k < |outcome.trace.replies| ensures outcome.trace.replies[k] == Sanitize(generate(k)) {
      assert outcome.trace.replies[k] == respond(k);
    }
  }
}
