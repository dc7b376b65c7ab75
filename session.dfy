/** The two demo loops (chatbot_demo.py:17-56 and 62-115): the canned loop replays
    three fixed prompts, the interactive loop reads lines and obeys the commands
    `quit`/`exit`/`q` and `clear`. The inference call is a parameter: `generate(k)`
    is the raw text the k-th call (counting from 0) returned, and `respond(k)` the
    reply the loop makes of it (see `Replies`). */
module Session {
  import opened Text
  import opened Sanitizer
  import opened Transcript

  /** The prompts of the canned demo, in order. */
  const CannedInputs: seq<string> := ["Hello, how are you?", "What is the capital of France?", "Tell me a short joke"]

  /** The words that end the interactive loop, compared after lower-casing. */
  const QuitWords: seq<string> := ["quit", "exit", "q"]

  /** What the interactive loop does with one line of input. */
  datatype Command = Quit | Clear | Skip | Say(text: string)

  /** The command for the stripped line `said`, whose lower-cased form is `word`.
      The checks apply in this order: quit words, then `clear`, then the
      empty line. */
  function Decide(said: string, word: string): (c: Command)
    requires |word| == |said|
    ensures c == Quit <==> word in QuitWords
    ensures c == Clear <==> word == "clear"
    ensures c == Skip <==> said == ""
    ensures c.Say? ==> c.text == said && said != ""
  {
    if word in QuitWords then Quit
    else if word == "clear" then Clear
    else if said == "" then Skip
    else Say(said)
  }

  /** The command a line of input stands for; `None` is end of input or an
      interrupt, which ends the loop like `quit`. */
  function Classify(line: Option<string>): (c: Command)
    ensures c == Quit <==> line.None? || Lower(Strip(line.value)) in QuitWords
    ensures c == Clear <==> line.Some? && Lower(Strip(line.value)) == "clear"
    ensures c == Skip <==> line.Some? && Strip(line.value) == ""
    ensures c.Say? ==> line.Some? && c.text == Strip(line.value) && c.text != "" && IsStripped(c.text)
  {
    match line
    case None => Quit
    case Some(raw) => Decide(Strip(raw), Lower(Strip(raw)))
  }

  /** Lines are stripped on reading, so whitespace around a typed line never
      changes the command it stands for. */
  lemma ClassifyIgnoresSpaces(line: string)
    ensures Classify(Some(line)) == Classify(Some(Strip(line)))
  {
    StripIdempotent(line);
  }

  /** What a loop has done so far: the history, every prompt sent to the
      inference call and every reply shown, in order. */
  datatype Trace = Trace(history: seq<string>, prompts: seq<string>, replies: seq<string>)

  /** A loop before its first turn. */
  const Start: Trace := Trace([], [], [])

  /** The replies both loops make of the raw texts (chatbot_demo.py:44-50 and
      103-109): call k's text, cleaned. */
  function Replies(generate: nat -> string): (respond: nat -> string)
    ensures forall k :: respond(k) == Sanitize(generate(k))
  {
    (k: nat) => Sanitize(generate(k))
  }

  /** One turn on a trace: the next inference call is number `|t.prompts|`. */
  function Exchanged(t: Trace, said: string, respond: nat -> string): Trace {
    var reply := respond(|t.prompts|);
    Trace(t.history + [HumanLine(said), AssistantLine(reply)],
          t.prompts + [Render(t.history + [HumanLine(said)])],
          t.replies + [reply])
  }

  /** One turn makes one more call and shows one more reply, keeping the earlier
      ones, and on a well-formed history it adds exactly the turn of what was
      said and the reply to call number `|t.prompts|`. */
  lemma ExchangedAddsTurn(t: Trace, said: string, respond: nat -> string)
    ensures var n := Exchanged(t, said, respond);
      && |n.prompts| == |t.prompts| + 1 && n.prompts[..|t.prompts|] == t.prompts
      && |n.replies| == |t.replies| + 1 && n.replies[..|t.replies|] == t.replies
      && n.replies[|t.replies|] == respond(|t.prompts|)
    ensures WellFormed(t.history) ==>
      var n := Exchanged(t, said, respond);
      WellFormed(n.history) && Exchanges(n.history) == Exchanges(t.history) + [Exchange(said, respond(|t.prompts|))]
  {
    var reply := respond(|t.prompts|);
    var h := t.history + [HumanLine(said), AssistantLine(reply)];
    assert t.prompts + [Render(t.history + [HumanLine(said)])] == Exchanged(t, said, respond).prompts;
    if WellFormed(t.history) {
      TurnKeepsWellFormed(t.history, said, reply);
      assert t.history + [HumanLine(said)] + [AssistantLine(reply)] == h;
      assert h[..|h| - 2] == t.history;
      HumanLineParts(said);
      AssistantLineParts(reply);
    }
  }

  /** What the canned loop has done after the prompts of `script`. */
  function Replay(script: seq<string>, respond: nat -> string): (t: Trace)
    ensures |t.prompts| == |t.replies| == |script|
  {
    if script == [] then Start
    else Exchanged(Replay(script[..|script| - 1], respond), script[|script| - 1], respond)
  }

  /** The completed turns made of what was said and what was replied, pairwise. */
  function Zip(said: seq<string>, replies: seq<string>): (exchanges: seq<Exchange>)
    requires |said| == |replies|
    ensures |exchanges| == |said|
  {
    if said == [] then []
    else
      var n := |said|;
      Zip(said[..n - 1], replies[..n - 1]) + [Exchange(said[n - 1], replies[n - 1])]
  }

  /** A completed turn more: the replies so far extended by one. */
  lemma ZipSnoc(said: seq<string>, replies: seq<string>)
    requires |said| == |replies| > 0
    ensures Zip(said, replies) == Zip(said[..|said| - 1], replies[..|said| - 1]) + [Exchange(said[|said| - 1], replies[|said| - 1])]
    ensures Lines(Zip(said, replies))
      == Lines(Zip(said[..|said| - 1], replies[..|said| - 1])) + [HumanLine(said[|said| - 1]), AssistantLine(replies[|said| - 1])]
  {
    var ex := Zip(said, replies);
    assert ex[..|ex| - 1] == Zip(said[..|said| - 1], replies[..|said| - 1]);
  }

  /** One prompt more keeps the earlier prompts and replies and adds one of each. */
  lemma ReplayExtends(script: seq<string>, respond: nat -> string)
    requires script != []
    ensures var n, before, after := |script|, Replay(script[..|script| - 1], respond), Replay(script, respond);
      && after.replies == before.replies + [respond(n - 1)]
      && after.prompts == before.prompts + [Render(before.history + [HumanLine(script[n - 1])])]
      && after.history == before.history + [HumanLine(script[n - 1]), AssistantLine(respond(n - 1))]
  {
  }

  /** After a script, the k-th reply is the cleaned text of the k-th call. */
  lemma {:induction false} ReplayReplies(script: seq<string>, respond: nat -> string)
    ensures forall k :: 0 <= k < |script| ==> Replay(script, respond).replies[k] == respond(k)
  {
    if script != [] {
      var n := |script|;
      var before, after := Replay(script[..n - 1], respond), Replay(script, respond);
      assert after.replies == before.replies + [respond(n - 1)] by {
        ReplayExtends(script, respond);
      }
      assert forall k :: 0 <= k < n - 1 ==> before.replies[k] == respond(k) by {
        ReplayReplies(script[..n - 1], respond);
      }
    }
  }

  /** After a script, the history holds every prompt of it with its reply, in order. */
  lemma {:induction false} ReplayHistory(script: seq<string>, respond: nat -> string)
    ensures Replay(script, respond).history == Lines(Zip(script, Replay(script, respond).replies))
  {
    if script != [] {
      var n := |script|;
      ReplayHistory(script[..n - 1], respond);
      ReplayExtends(script, respond);
      ZipSnoc(script, Replay(script, respond).replies);
    }
  }

  /** After a script, the k-th prompt is the history left by the k turns before
      it, then the k-th user line, then the cue. */
  lemma {:induction false} ReplayPromptAt(script: seq<string>, k: nat, respond: nat -> string)
    requires k < |script|
    ensures Replay(script, respond).prompts[k] == Render(Replay(script[..k], respond).history + [HumanLine(script[k])])
  {
    var n := |script|;
    var front := script[..n - 1];
    var before, after := Replay(front, respond), Replay(script, respond);
    ReplayExtends(script, respond);
    if k < n - 1 {
      assert after.prompts[k] == before.prompts[k];
      ReplayPromptAt(front, k, respond);
      assert script[..k] == front[..k] && script[k] == front[k];
    } else {
      assert script[..k] == front;
    }
  }

  /** The first turn of a script. */
  lemma ReplayOne(x0: string, respond: nat -> string)
    ensures Replay([x0], respond)
      == Trace([HumanLine(x0), AssistantLine(respond(0))], [Render([HumanLine(x0)])], [respond(0)])
  {
    assert [x0][..0] == [];
  }

  /** The second turn of a script. */
  lemma ReplayTwo(x0: string, x1: string, respond: nat -> string)
    ensures var h0, a0, h1 := HumanLine(x0), AssistantLine(respond(0)), HumanLine(x1);
      Replay([x0, x1], respond)
        == Trace([h0, a0, h1, AssistantLine(respond(1))], [Render([h0]), Render([h0, a0, h1])], [respond(0), respond(1)])
  {
    assert [x0, x1][..1] == [x0];
    ReplayOne(x0, respond);
    var h0, a0, h1 := HumanLine(x0), AssistantLine(respond(0)), HumanLine(x1);
    assert [h0, a0] + [h1] == [h0, a0, h1];
  }

  /** The third turn of a script. */
  lemma ReplayThree(x0: string, x1: string, x2: string, respond: nat -> string)
    ensures var h0, a0, h1, a1, h2 := HumanLine(x0), AssistantLine(respond(0)), HumanLine(x1), AssistantLine(respond(1)), HumanLine(x2);
      Replay([x0, x1, x2], respond)
        == Trace([h0, a0, h1, a1, h2, AssistantLine(respond(2))],
                 [Render([h0]), Render([h0, a0, h1]), Render([h0, a0, h1, a1, h2])],
                 [respond(0), respond(1), respond(2)])
  {
    assert [x0, x1, x2][..2] == [x0, x1];
    ReplayTwo(x0, x1, respond);
    var h0, a0, h1, a1, h2 := HumanLine(x0), AssistantLine(respond(0)), HumanLine(x1), AssistantLine(respond(1)), HumanLine(x2);
    assert [h0, a0, h1, a1] + [h2] == [h0, a0, h1, a1, h2];
  }

  /** The canned demo makes three calls; each prompt carries the whole
      conversation before it, and the history ends well formed. */
  lemma CannedTurns(respond: nat -> string)
    ensures var t, h0, a0, h1, a1, h2 := Replay(CannedInputs, respond),
      HumanLine(CannedInputs[0]), AssistantLine(respond(0)), HumanLine(CannedInputs[1]), AssistantLine(respond(1)),
      HumanLine(CannedInputs[2]);
      && t.replies == [respond(0), respond(1), respond(2)]
      && t.prompts == [Render([h0]), Render([h0, a0, h1]), Render([h0, a0, h1, a1, h2])]
      && t.history == [h0, a0, h1, a1, h2, AssistantLine(respond(2))]
      && WellFormed(t.history)
  {
    var s := CannedInputs;
    assert s == [s[0], s[1], s[2]];
    ReplayThree(s[0], s[1], s[2], respond);
    var h0, a0, h1, a1 := HumanLine(s[0]), AssistantLine(respond(0)), HumanLine(s[1]), AssistantLine(respond(1));
    TurnKeepsWellFormed([], s[0], respond(0));
    TurnKeepsWellFormed([h0, a0], s[1], respond(1));
    TurnKeepsWellFormed([h0, a0, h1, a1], s[2], respond(2));
  }

  /** One more prompt of the script is one more turn. */
  lemma ReplayStep(script: seq<string>, i: nat, respond: nat -> string)
    requires i < |script|
    ensures Replay(script[..i + 1], respond) == Exchanged(Replay(script[..i], respond), script[i], respond)
    ensures |Replay(script[..i], respond).prompts| == i
  {
    assert script[..i + 1][..i] == script[..i];
  }

  /** What `Conversation.Turn` leaves behind is one step of the trace. */
  lemma TurnIsExchanged(t: Trace, said: string, respond: nat -> string,
                        history: seq<string>, prompts: seq<string>, replies: seq<string>)
    requires history == t.history + [HumanLine(said), AssistantLine(respond(|t.prompts|))]
    requires prompts == t.prompts + [Render(t.history + [HumanLine(said)])]
    requires replies == t.replies + [respond(|t.prompts|)]
    ensures Trace(history, prompts, replies) == Exchanged(t, said, respond)
  {
  }

  /** The canned demo loop (chatbot_demo.py:29-56), over the prompts of `script`;
      the demo runs it on `CannedInputs`. */
  method RunCanned(script: seq<string>, generate: nat -> string) returns (t: Trace)
    ensures t == Replay(script, Replies(generate))
  {
    ghost var respond := Replies(generate);
    var conversation := new Conversation();
    var prompts: seq<string>, replies: seq<string> := [], [];
    for i := 0 to |script|
      invariant Trace(conversation.history, prompts, replies) == Replay(script[..i], respond)
    {
      ReplayStep(script, i, respond);
      ghost var before := Replay(script[..i], respond);
      var prompt, reply := conversation.Turn(script[i], generate(i));
      prompts, replies := prompts + [prompt], replies + [reply];
      TurnIsExchanged(before, script[i], respond, conversation.history, prompts, replies);
    }
    assert script[..|script|] == script;
    t := Trace(conversation.history, prompts, replies);
  }

  /** The trace after one command other than a quit word. */
  function Next(t: Trace, command: Command, respond: nat -> string): Trace {
    match command
    case Quit => t
    case Clear => t.(history := [])
    case Skip => t
    case Say(said) => Exchanged(t, said, respond)
  }

  /** Only a line that says something calls the model; `clear` forgets the
      history and keeps the calls made; an empty line changes nothing. */
  lemma NextCalls(t: Trace, command: Command, respond: nat -> string)
    ensures command.Say? ==> |Next(t, command, respond).prompts| == |t.prompts| + 1
    ensures !command.Say? ==> Next(t, command, respond).prompts == t.prompts && Next(t, command, respond).replies == t.replies
    ensures command == Clear ==> Next(t, command, respond).history == []
    ensures command == Skip ==> Next(t, command, respond) == t
  {
  }

  /** The commands a run of input lines stands for. */
  function Commands(inputs: seq<Option<string>>): (commands: seq<Command>)
    ensures |commands| == |inputs|
    ensures forall i :: 0 <= i < |inputs| ==> commands[i] == Classify(inputs[i])
  {
    if inputs == [] then [] else [Classify(inputs[0])] + Commands(inputs[1..])
  }

  /** How many of `commands` say something before the first quit: the number
      of inference calls the interactive loop makes for them. */
  function SaidBeforeQuit(commands: seq<Command>): nat {
    if commands == [] || commands[0] == Quit then 0
    else if commands[0].Say? then 1 + SaidBeforeQuit(commands[1..])
    else SaidBeforeQuit(commands[1..])
  }

  /** What the interactive loop has done from trace `t` after the commands
      `commands`; running out of input ends it as end of input does. */
  function Interact(t: Trace, commands: seq<Command>, respond: nat -> string): (n: Trace)
    ensures |n.prompts| == |t.prompts| + SaidBeforeQuit(commands)
    ensures |n.replies| == |t.replies| + SaidBeforeQuit(commands)
    decreases |commands|
  {
    if commands == [] || commands[0] == Quit then t
    else Interact(Next(t, commands[0], respond), commands[1..], respond)
  }

  /** The interactive loop: a quit word ends it with the trace unchanged, `clear`
      empties the history and goes on, an empty line leaves the trace as it is. */
  lemma InteractCommands(t: Trace, command: Command, rest: seq<Command>, respond: nat -> string)
    ensures command == Quit ==> Interact(t, [command] + rest, respond) == t
    ensures command == Clear ==> Interact(t, [command] + rest, respond) == Interact(t.(history := []), rest, respond)
    ensures command == Skip ==> Interact(t, [command] + rest, respond) == Interact(t, rest, respond)
  {
    assert ([command] + rest)[1..] == rest;
  }

  /** The interactive loop, one typed line at a time (chatbot_demo.py:75-112): end
      of input or a quit word in any letter case ends it with the trace unchanged;
      `clear` empties the history and reads on; an empty line reads on with the
      trace unchanged; anything else is one turn on the stripped line. */
  lemma InteractLine(t: Trace, line: Option<string>, rest: seq<Option<string>>, respond: nat -> string)
    ensures var after := Interact(t, Commands([line] + rest), respond);
      && (line.None? ==> after == t)
      && (line.Some? && Lower(Strip(line.value)) in QuitWords ==> after == t)
      && (line.Some? && Lower(Strip(line.value)) == "clear" ==> after == Interact(t.(history := []), Commands(rest), respond))
      && (line.Some? && Strip(line.value) == "" ==> after == Interact(t, Commands(rest), respond))
      && (line.Some? && Strip(line.value) != "" && Lower(Strip(line.value)) !in QuitWords && Lower(Strip(line.value)) != "clear" ==>
            after == Interact(Exchanged(t, Strip(line.value), respond), Commands(rest), respond))
  {
    assert Commands([line] + rest) == [Classify(line)] + Commands(rest);
    InteractCommands(t, Classify(line), Commands(rest), respond);
  }

  /** Nothing typed after a quit word has any effect. */
  lemma {:induction false} InteractIgnoresAfterQuit(t: Trace, before: seq<Command>, rest1: seq<Command>, rest2: seq<Command>,
                                                   respond: nat -> string)
    ensures Interact(t, before + [Quit] + rest1, respond) == Interact(t, before + [Quit] + rest2, respond)
    decreases |before|
  {
    var commands1, commands2 := before + [Quit] + rest1, before + [Quit] + rest2;
    if before == [] {
      assert commands1[0] == Quit && commands2[0] == Quit;
    } else {
      assert commands1[0] == before[0] && commands2[0] == before[0];
      assert commands1[1..] == before[1..] + [Quit] + rest1;
      assert commands2[1..] == before[1..] + [Quit] + rest2;
      if before[0] != Quit {
        InteractIgnoresAfterQuit(Next(t, before[0], respond), before[1..], rest1, rest2, respond);
      }
    }
  }

  /** What the interactive loop does next depends on the history and on how many
      calls were made, not on the earlier prompts and replies. */
  lemma {:induction false} InteractDependsOnHistory(t1: Trace, t2: Trace, commands: seq<Command>, respond: nat -> string)
    requires t1.history == t2.history && |t1.prompts| == |t2.prompts|
    ensures Interact(t1, commands, respond).history == Interact(t2, commands, respond).history
    ensures |t1.prompts| <= |Interact(t1, commands, respond).prompts|
    ensures |t2.prompts| <= |Interact(t2, commands, respond).prompts|
    ensures Interact(t1, commands, respond).prompts[|t1.prompts|..] == Interact(t2, commands, respond).prompts[|t2.prompts|..]
    decreases |commands|
  {
    if commands != [] && commands[0] != Quit {
      var n1, n2 := Next(t1, commands[0], respond), Next(t2, commands[0], respond);
      NextDependsOnHistory(t1, t2, commands[0], respond);
      InteractDependsOnHistory(n1, n2, commands[1..], respond);
      var r1, r2 := Interact(n1, commands[1..], respond), Interact(n2, commands[1..], respond);
      InteractExtends(n1, commands[1..], respond);
      InteractExtends(n2, commands[1..], respond);
      SuffixSplit(r1.prompts, n1.prompts, |t1.prompts|);
      SuffixSplit(r2.prompts, n2.prompts, |t2.prompts|);
    }
  }

  /** The loop only ever adds prompts: the earlier ones stay as they were. */
  lemma {:induction false} InteractExtends(t: Trace, commands: seq<Command>, respond: nat -> string)
    ensures |t.prompts| <= |Interact(t, commands, respond).prompts|
    ensures Interact(t, commands, respond).prompts[..|t.prompts|] == t.prompts
    decreases |commands|
  {
    if commands != [] && commands[0] != Quit {
      var n := Next(t, commands[0], respond);
      assert |t.prompts| <= |n.prompts| && n.prompts[..|t.prompts|] == t.prompts;
      InteractExtends(n, commands[1..], respond);
      PrefixOfPrefix(t.prompts, n.prompts, Interact(n, commands[1..], respond).prompts);
    }
  }

  /** One command: the same history and call count give the same next history and new prompts. */
  lemma NextDependsOnHistory(t1: Trace, t2: Trace, command: Command, respond: nat -> string)
    requires t1.history == t2.history && |t1.prompts| == |t2.prompts|
    ensures Next(t1, command, respond).history == Next(t2, command, respond).history
    ensures |t1.prompts| <= |Next(t1, command, respond).prompts|
    ensures |Next(t1, command, respond).prompts| == |Next(t2, command, respond).prompts|
    ensures Next(t1, command, respond).prompts[..|t1.prompts|] == t1.prompts
    ensures Next(t2, command, respond).prompts[..|t2.prompts|] == t2.prompts
    ensures Next(t1, command, respond).prompts[|t1.prompts|..] == Next(t2, command, respond).prompts[|t2.prompts|..]
  {
  }

  /** The part of `r` after position `k` of its prefix `p` is the rest of `p` and then the rest of `r`. */
  lemma SuffixSplit(r: seq<string>, p: seq<string>, k: nat)
    requires k <= |p| <= |r| && r[..|p|] == p
    ensures r[k..] == p[k..] + r[|p|..]
  {
  }

  /** After `clear`, what happens no longer depends on the conversation before it. */
  lemma ClearForgets(t1: Trace, t2: Trace, rest: seq<Command>, respond: nat -> string)
    requires |t1.prompts| == |t2.prompts|
    ensures Interact(t1, [Clear] + rest, respond).history == Interact(t2, [Clear] + rest, respond).history
    ensures |t1.prompts| <= |Interact(t1, [Clear] + rest, respond).prompts|
    ensures |t2.prompts| <= |Interact(t2, [Clear] + rest, respond).prompts|
    ensures Interact(t1, [Clear] + rest, respond).prompts[|t1.prompts|..] == Interact(t2, [Clear] + rest, respond).prompts[|t2.prompts|..]
  {
    InteractCommands(t1, Clear, rest, respond);
    InteractCommands(t2, Clear, rest, respond);
    InteractDependsOnHistory(t1.(history := []), t2.(history := []), rest, respond);
  }

  /** Between turns the interactive history stays well formed, calls and replies
      stay paired, earlier prompts and replies are kept, and every new reply is the
      cleaned text of its own call. */
  lemma {:induction false} InteractInvariant(t: Trace, commands: seq<Command>, respond: nat -> string)
    requires WellFormed(t.history) && |t.prompts| == |t.replies|
    ensures var r := Interact(t, commands, respond);
      && WellFormed(r.history)
      && |r.prompts| == |r.replies|
      && |t.prompts| <= |r.prompts|
      && r.prompts[..|t.prompts|] == t.prompts
      && r.replies[..|t.replies|] == t.replies
      && forall k :: |t.replies| <= k < |r.replies| ==> r.replies[k] == respond(k)
    decreases |commands|
  {
    if commands != [] && commands[0] != Quit {
      var n := Next(t, commands[0], respond);
      NextInvariant(t, commands[0], respond);
      InteractInvariant(n, commands[1..], respond);
      var r := Interact(n, commands[1..], respond);
      PrefixOfPrefix(t.prompts, n.prompts, r.prompts);
      PrefixOfPrefix(t.replies, n.replies, r.replies);
      forall k | |t.replies| <= k < |r.replies| ensures r.replies[k] == respond(k) {
        if k < |n.replies| {
          assert r.replies[k] == r.replies[..|n.replies|][k];
        }
      }
    }
  }

  /** One command keeps the history well formed and extends prompts and replies together. */
  lemma NextInvariant(t: Trace, command: Command, respond: nat -> string)
    requires WellFormed(t.history) && |t.prompts| == |t.replies|
    ensures var n := Next(t, command, respond);
      && WellFormed(n.history)
      && |n.prompts| == |n.replies|
      && |t.prompts| <= |n.prompts|
      && n.prompts[..|t.prompts|] == t.prompts
      && n.replies[..|t.replies|] == t.replies
      && forall k :: |t.replies| <= k < |n.replies| ==> n.replies[k] == respond(k)
  {
    match command
    case Say(said) =>
      var reply := respond(|t.prompts|);
      TurnKeepsWellFormed(t.history, said, reply);
      assert t.history + [HumanLine(said)] + [AssistantLine(reply)] == t.history + [HumanLine(said), AssistantLine(reply)];
    case _ =>
  }

  /** Reading command `i`: the rest of the run is what that command leads to. */
  lemma InteractStep(t: Trace, commands: seq<Command>, i: nat, respond: nat -> string)
    requires i < |commands|
    ensures commands[i] == Quit ==> Interact(t, commands[i..], respond) == t
    ensures commands[i] != Quit ==>
      Interact(t, commands[i..], respond) == Interact(Next(t, commands[i], respond), commands[i + 1..], respond)
  {
    assert commands[i..][0] == commands[i];
    assert commands[i..][1..] == commands[i + 1..];
  }

  /** One pass of the interactive loop's body after the quit check
      (chatbot_demo.py:85-115): obey `command` on the conversation, with
      `prompts` and `replies` the calls made and replies shown so far. */
  method Obey(conversation: Conversation, prompts: seq<string>, replies: seq<string>, command: Command,
              generate: nat -> string) returns (prompts': seq<string>, replies': seq<string>)
    modifies conversation
    ensures Trace(conversation.history, prompts', replies')
      == Next(Trace(old(conversation.history), prompts, replies), command, Replies(generate))
  {
    prompts', replies' := prompts, replies;
    match command {
      case Quit =>
      case Clear =>
        conversation.Clear();
      case Skip =>
      case Say(said) =>
        var prompt, reply := conversation.Turn(said, generate(|prompts|));
        prompts', replies' := prompts + [prompt], replies + [reply];
        TurnIsExchanged(Trace(old(conversation.history), prompts, replies), said, Replies(generate),
                        conversation.history, prompts', replies');
    }
  }

  /** The interactive demo loop (chatbot_demo.py:71-115), over the lines the user
      types; `None` stands for end of input or an interrupt. */
  method RunInteractive(inputs: seq<Option<string>>, generate: nat -> string) returns (t: Trace)
    ensures t == Interact(Start, Commands(inputs), Replies(generate))
  {
    ghost var respond := Replies(generate);
    var conversation := new Conversation();
    var prompts: seq<string>, replies: seq<string> := [], [];
    ghost var commands := Commands(inputs);
    var i := 0;
    while i < |inputs|
      invariant 0 <= i <= |inputs|
      invariant Interact(Trace(conversation.history, prompts, replies), commands[i..], respond) == Interact(Start, commands, respond)
    {
      var command := Classify(inputs[i]);
      InteractStep(Trace(conversation.history, prompts, replies), commands, i, respond);
      if command == Quit {
        break;
      }
      prompts, replies := Obey(conversation, prompts, replies, command, generate);
      i := i + 1;
    }
    t := Trace(conversation.history, prompts, replies);
  }
}
