/** The conversation history both demo loops keep (chatbot_demo.py:29-53 and
    71-112): a list of lines, "Human: ..." and "Assistant: ..." in turn, that is
    joined into the prompt of every inference call. */
module Transcript {
  import opened Text
  import opened Sanitizer

  const HumanLabel: string := "Human: "
  const AssistantLabel: string := "Assistant: "

  /** The cue after the history that asks the model for the assistant's turn. */
  const Cue: string := "\nAssistant:"

  /** The history line of what the user said: `Human: ` and the text. */
  function HumanLine(said: string): string {
    HumanLabel + said
  }

  /** The history line of the assistant's reply: `Assistant: ` and the reply. */
  function AssistantLine(reply: string): string {
    AssistantLabel + reply
  }

  predicate IsHumanLine(line: string) {
    IsPrefix(HumanLabel, line)
  }

  predicate IsAssistantLine(line: string) {
    IsPrefix(AssistantLabel, line)
  }

  /** A Human line is recognised as one and never as an Assistant line, and the
      text after its label is what was said. */
  lemma HumanLineParts(said: string)
    ensures IsHumanLine(HumanLine(said)) && !IsAssistantLine(HumanLine(said))
    ensures HumanLine(said)[|HumanLabel|..] == said
  {
    assert HumanLine(said)[0] == 'H';
  }

  /** An Assistant line is recognised as one and never as a Human line, and the
      text after its label is the reply. */
  lemma AssistantLineParts(reply: string)
    ensures IsAssistantLine(AssistantLine(reply)) && !IsHumanLine(AssistantLine(reply))
    ensures AssistantLine(reply)[|AssistantLabel|..] == reply
  {
    assert AssistantLine(reply)[0] == 'A';
  }

  /** Python's `sep.join(lines)`: empty for no lines, the line itself for one,
      otherwise it starts with the first line. */
  function Join(lines: seq<string>, sep: string): (s: string)
    ensures lines == [] ==> s == ""
    ensures lines != [] ==> IsPrefix(lines[0], s)
    ensures |lines| == 1 ==> s == lines[0]
  {
    if |lines| == 0 then ""
    else if |lines| == 1 then lines[0]
    else Join(lines[..|lines| - 1], sep) + sep + lines[|lines| - 1]
  }

  /** Joining two non-empty runs of lines puts one separator between them. */
  lemma {:induction false} JoinConcat(a: seq<string>, b: seq<string>, sep: string)
    requires |a| > 0 && |b| > 0
    ensures Join(a + b, sep) == Join(a, sep) + sep + Join(b, sep)
  {
    if |b| == 1 {
      assert (a + b)[..|a + b| - 1] == a;
    } else {
      var b' := b[..|b| - 1];
      assert (a + b)[..|a + b| - 1] == a + b';
      JoinConcat(a, b', sep);
    }
  }

  /** The prompt for the next inference call: `"\n".join(history) + "\nAssistant:"`. */
  function Render(history: seq<string>): (prompt: string)
    ensures |prompt| >= |Cue| && prompt[|prompt| - |Cue|..] == Cue
    ensures IsPrefix(Join(history, "\n"), prompt)
    ensures |prompt| == |Join(history, "\n")| + |Cue|
    ensures history == [] ==> prompt == Cue
    ensures |history| == 1 ==> prompt == history[0] + Cue
  {
    Join(history, "\n") + Cue
  }

  /** Rendering after one more line equals the earlier history's join, a newline,
      the new line and the cue. */
  lemma RenderAppend(history: seq<string>, line: string)
    requires |history| > 0
    ensures Render(history + [line]) == Join(history, "\n") + "\n" + line + Cue
  {
    JoinConcat(history, [line], "\n");
  }

  /** One completed turn: what the user said and the reply recorded for it. */
  datatype Exchange = Exchange(said: string, reply: string)

  /** The history lines a run of completed turns leaves behind. */
  function Lines(exchanges: seq<Exchange>): (history: seq<string>)
    ensures |history| == 2 * |exchanges|
  {
    if exchanges == [] then []
    else
      var last := exchanges[|exchanges| - 1];
      Lines(exchanges[..|exchanges| - 1]) + [HumanLine(last.said), AssistantLine(last.reply)]
  }

  /** Line `2k` is the k-th user line and line `2k+1` the k-th reply. */
  lemma {:induction false} LinesAt(exchanges: seq<Exchange>, k: nat)
    requires k < |exchanges|
    ensures Lines(exchanges)[2 * k] == HumanLine(exchanges[k].said)
    ensures Lines(exchanges)[2 * k + 1] == AssistantLine(exchanges[k].reply)
  {
    var n := |exchanges|;
    if k < n - 1 {
      LinesAt(exchanges[..n - 1], k);
    }
  }

  /** The history's shape between turns: Human and Assistant lines in pairs,
      starting with a Human line. */
  predicate WellFormed(history: seq<string>) {
    var n := |history|;
    history == [] ||
      (n >= 2 && IsHumanLine(history[n - 2]) && IsAssistantLine(history[n - 1]) && WellFormed(history[..n - 2]))
  }

  /** A well-formed history has even length, Human lines at even positions and
      Assistant lines at odd ones, and conversely. */
  lemma {:induction false} WellFormedAlternates(history: seq<string>)
    ensures WellFormed(history) <==>
      && |history| % 2 == 0
      && (forall i :: 0 <= i < |history| && i % 2 == 0 ==> IsHumanLine(history[i]))
      && (forall i :: 0 <= i < |history| && i % 2 == 1 ==> IsAssistantLine(history[i]))
  {
    var n := |history|;
    if n >= 2 {
      var front := history[..n - 2];
      WellFormedAlternates(front);
      assert forall i :: 0 <= i < n - 2 ==> history[i] == front[i];
    } else if n == 1 {
      assert !WellFormed(history);
      assert |history| % 2 != 0;
    }
  }

  /** The completed turns recorded in a well-formed history. */
  function Exchanges(history: seq<string>): (exchanges: seq<Exchange>)
    requires WellFormed(history)
    ensures |exchanges| * 2 == |history|
  {
    if history == [] then []
    else
      var n := |history|;
      Exchanges(history[..n - 2]) + [Exchange(history[n - 2][|HumanLabel|..], history[n - 1][|AssistantLabel|..])]
  }

  /** Every run of turns leaves a well-formed history, and the turns can be read back from it. */
  lemma {:induction false} LinesRoundTrip(exchanges: seq<Exchange>)
    ensures WellFormed(Lines(exchanges))
    ensures Exchanges(Lines(exchanges)) == exchanges
  {
    if exchanges != [] {
      var n := |exchanges|;
      var front := exchanges[..n - 1];
      var last := exchanges[n - 1];
      LinesRoundTrip(front);
      var h := Lines(exchanges);
      assert h[..2 * n - 2] == Lines(front);
      HumanLineParts(last.said);
      AssistantLineParts(last.reply);
      assert exchanges == front + [last];
    }
  }

  /** Every well-formed history is exactly the lines of the turns read back from it. */
  lemma {:induction false} ExchangesRoundTrip(history: seq<string>)
    requires WellFormed(history)
    ensures Lines(Exchanges(history)) == history
  {
    if history != [] {
      var n := |history|;
      var front := history[..n - 2];
      ExchangesRoundTrip(front);
      var ex := Exchanges(history);
      var last := Exchange(history[n - 2][|HumanLabel|..], history[n - 1][|AssistantLabel|..]);
      assert ex == Exchanges(front) + [last];
      assert ex[..|ex| - 1] == Exchanges(front);
      assert HumanLine(last.said) == history[n - 2];
      assert AssistantLine(last.reply) == history[n - 1];
      assert history == front + [history[n - 2], history[n - 1]];
    }
  }

  /** A completed turn keeps the history well formed. */
  lemma TurnKeepsWellFormed(history: seq<string>, said: string, reply: string)
    requires WellFormed(history)
    ensures WellFormed(history + [HumanLine(said), AssistantLine(reply)])
  {
    assert (history + [HumanLine(said), AssistantLine(reply)])[..|history|] == history;
  }

  /** The `conversation_history` list each demo loop owns and appends to in place. */
  class Conversation {
    var history: seq<string>

    /** A new conversation, whose history is empty. */
    constructor ()
      ensures history == []
    {
      history := [];
    }

    /** Records what the user said as a Human line at the end of the history. */
    method AppendHuman(said: string)
      modifies this
      ensures history == old(history) + [HumanLine(said)]
    {
      history := history + [HumanLine(said)];
    }

    /** Records the reply as an Assistant line at the end of the history. */
    method AppendAssistant(reply: string)
      modifies this
      ensures history == old(history) + [AssistantLine(reply)]
    {
      history := history + [AssistantLine(reply)];
    }

    /** The `clear` command: forgets the whole history. */
    method Clear()
      modifies this
      ensures history == []
    {
      history := [];
    }

    /** One turn of either loop: record what the user said, render the prompt,
        clean the raw text generated for it and record the reply. `raw` stands
        for the text the inference call returned. */
    method Turn(said: string, raw: string) returns (prompt: string, reply: string)
      modifies this
      ensures prompt == Render(old(history) + [HumanLine(said)])
      ensures reply == Sanitize(raw)
      ensures history == old(history) + [HumanLine(said), AssistantLine(reply)]
      ensures WellFormed(old(history)) ==> WellFormed(history)
    {
      AppendHuman(said);
      prompt := Render(history);
      reply := Sanitize(raw);
      AppendAssistant(reply);
      if WellFormed(old(history)) {
        TurnKeepsWellFormed(old(history), said, reply);
      }
    }
  }
}
