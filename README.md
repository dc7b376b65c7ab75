# chatbot_demo.py in Dafny

`chatbot_demo.py` is a command-line chat demo built on the vLLM inference library.
After a small start-up menu picks a model and a mode, it runs one of two loops.
The canned loop sends three fixed prompts. The interactive loop reads lines from the user.
Each turn of either loop does the same steps:
- append `Human: <input>` to the conversation history;
- render the prompt (the history joined by newlines, then `\nAssistant:`);
- send it to the model;
- clean the generated text: strip it, cut it before the first `Human:` and strip again, cut it before the first blank line and strip again;
- append `Assistant: <reply>` to the history.

The interactive loop also obeys `quit`/`exit`/`q` (any letter case) and `clear`, and it skips empty lines.

The Dafny model is split into these modules:

- `Text` (`text.dfy`): the Python string operations the demo uses, written out over `seq<char>`: `str.strip()`, `str.lower()`, `sub in s` and `s.split(sep)[0]`. A first-occurrence search `Find` is how the model states both `in` and `split`; the demo itself never calls `str.find`.
- `Sanitizer` (`sanitizer.dfy`): the reply clean-up and its properties. The reply is a prefix, and so a substring, of the stripped raw text. It is stripped and contains neither marker. It equals the stripped text when neither marker occurs. Cleaning is idempotent. The reply ends before the first `Human:` and before the first blank line, and it keeps everything before the first of them except trailing whitespace: it is exactly the stripped text before the first marker, stripped again.
- `Transcript` (`transcript.dfy`): the history as a class `Conversation` with a `seq<string>` field that both loops update in place, prompt rendering, and the shape of the history between turns: Human and Assistant lines in pairs. A decoder `Exchanges` reads the completed turns back from a well-formed history, and two round-trip lemmas connect it with `Lines`.
- `Session` (`session.dfy`): the two loops as `method`s over a `Conversation`, each proved equal to a functional specification (`Replay` for the canned loop, `Interact` over classified `Command`s for the interactive loop), and lemmas about those specifications.
- `Menu` (`menu.dfy`): the model table, the model, mode and `max_tokens` selection rules.
- `Demo` (`demo.dfy`): `main` as a method that chains the menu rules with the loop that was chosen.

The model treats the inference call as a parameter. `generate(k)` is the raw text the k-th call returns, counting from 0. Any function is allowed, so every property holds whatever the model generates. Console input is a sequence of lines. A line is `None` when reading hit end of input or an interrupt.

## Model

| member | source | states |
|---|---|---|
| Text.Strip | chatbot_demo.py:44 | `str.strip()`: the result has no whitespace at either end and occurs in the input right after its leading whitespace |
| Text.StripRemovesOnlySpace | chatbot_demo.py:44 | what `str.strip()` removes before and after the result is all whitespace |
| Text.StripStripped | chatbot_demo.py:48 | stripping text that has no whitespace at its ends leaves it unchanged |
| Text.StripOfPadded | chatbot_demo.py:48 | `str.strip()` is determined by what it keeps: a stripped prefix followed by whitespace only is the stripped string |
| Text.StripIdempotent | chatbot_demo.py:76 | stripping twice gives the same text as stripping once |
| Text.Lower | chatbot_demo.py:81 | `str.lower()` on ASCII letters: same length, each character lowered on its own |
| Text.Find | chatbot_demo.py:47 | finds an occurrence exactly when `marker in response` holds, and it is the first occurrence |
| Text.SplitFirst | chatbot_demo.py:48 | `s.split(sep)[0]`: a prefix of `s` without `sep` that ends where the first `sep` begins; all of `s` when `sep` does not occur |
| Sanitizer.CutAt | chatbot_demo.py:47-50 | one guarded cut: unchanged when the marker is absent; otherwise the text before the first marker with its leading and trailing whitespace removed and nothing else (whitespace before it, the result, whitespace after it up to the marker); never contains the marker |
| Sanitizer.CutKeepsStart | chatbot_demo.py:47-50 | on stripped text a cut keeps a stripped prefix that ends before the first marker, with only whitespace between its end and the marker |
| Sanitizer.Sanitize | chatbot_demo.py:44-50 | the reply is a prefix of the stripped raw text and contains neither `Human:` nor a blank line; what it keeps is stated by `SanitizeKeepsAllBefore` and `SanitizeIsStripBefore` |
| Sanitizer.ReplyEnd | chatbot_demo.py:47-50 | the first index where `Human:` or a blank line begins, or the end of the text when neither occurs |
| Sanitizer.SanitizeKeepsAllBefore | chatbot_demo.py:44-50 | the reply ends at or before the first marker, and from its end up to that marker there is only whitespace: nothing before the marker is lost |
| Sanitizer.SanitizeIsStripBefore | chatbot_demo.py:44-50 | the reply is exactly the stripped raw text before its first marker, stripped again |
| Sanitizer.SanitizeSubstring | chatbot_demo.py:103-109 | the reply is a substring of the stripped raw text |
| Sanitizer.SanitizeStripped | chatbot_demo.py:44-50 | the reply has no whitespace at either end; with neither marker in the stripped raw text it is that text |
| Sanitizer.SanitizeIdempotent | chatbot_demo.py:106-109 | cleaning a cleaned reply returns it unchanged |
| Sanitizer.SanitizeStopsBeforeHuman | chatbot_demo.py:47-48 | the reply ends before the first `Human:` of the stripped raw text |
| Sanitizer.SanitizeStopsBeforeBreak | chatbot_demo.py:49-50 | the reply ends before the first blank line of the stripped raw text |
| Transcript.HumanLineParts | chatbot_demo.py:35 | a Human line is recognised as one, never as an Assistant line, and the text after `Human: ` is what was said; the same f-string is at :94 |
| Transcript.AssistantLineParts | chatbot_demo.py:53 | an Assistant line is recognised as one, never as a Human line, and the text after `Assistant: ` is the reply; the same f-string is at :112 |
| Transcript.Join | chatbot_demo.py:36 | `"\n".join`: empty for no lines, the line itself for one line, otherwise it starts with the first line; with JoinConcat this fixes the join of any list |
| Transcript.JoinConcat | chatbot_demo.py:36 | `"\n".join` of two non-empty runs of lines is their joins with one newline between |
| Transcript.Render | chatbot_demo.py:36 | the prompt is exactly the joined history followed by `\nAssistant:`: the join is its prefix, the cue its suffix, and its length is the sum of theirs; for an empty history it is exactly `\nAssistant:` |
| Transcript.RenderAppend | chatbot_demo.py:94-95 | the prompt after one more line is the earlier join, a newline, the new line and the cue |
| Transcript.Lines | chatbot_demo.py:35-53 | the completed turns leave exactly two history lines each |
| Transcript.LinesAt | chatbot_demo.py:35-53 | line 2k is `Human: ` and the k-th input; line 2k+1 is `Assistant: ` and the k-th reply |
| Transcript.WellFormedAlternates | chatbot_demo.py:94-112 | a history is well formed exactly when it has even length, with Human lines at even positions and Assistant lines at odd ones |
| Transcript.Exchanges | chatbot_demo.py:94-112 | a well-formed history holds one completed turn per two lines |
| Transcript.LinesRoundTrip | chatbot_demo.py:94-112 | the lines of any run of turns are well formed and decode back to those turns |
| Transcript.ExchangesRoundTrip | chatbot_demo.py:94-112 | a well-formed history is exactly the lines of the turns decoded from it |
| Transcript.TurnKeepsWellFormed | chatbot_demo.py:94-112 | one completed turn keeps the history well formed |
| Transcript.Conversation.constructor | chatbot_demo.py:71 | a new conversation has an empty history |
| Transcript.Conversation.AppendHuman | chatbot_demo.py:94 | appends exactly `Human: ` and the input |
| Transcript.Conversation.AppendAssistant | chatbot_demo.py:112 | appends exactly `Assistant: ` and the reply |
| Transcript.Conversation.Clear | chatbot_demo.py:86 | the history becomes empty |
| Transcript.Conversation.Turn | chatbot_demo.py:93-112 | a turn grows the history by the Human line and then the Assistant line of the cleaned reply; the prompt is the render of the history with the Human line; a well-formed history stays well formed |
| Session.Decide | chatbot_demo.py:81-91 | a quit word quits, `clear` clears, an empty line is skipped, in that order of checks; anything else is said |
| Session.Classify | chatbot_demo.py:75-92 | end of input or a quit word in any case quits, `clear` clears, an empty stripped line is skipped, anything else is said as its stripped, non-empty text |
| Session.ClassifyIgnoresSpaces | chatbot_demo.py:76-91 | whitespace around a typed line never changes the command it stands for |
| Session.Commands | chatbot_demo.py:73-92 | the commands of a run of lines are the lines classified one by one |
| Session.ExchangedAddsTurn | chatbot_demo.py:93-112 | one turn makes one more call and shows one more reply, keeping the earlier ones; on a well-formed history it adds exactly one decoded turn, of what was said and the reply |
| Session.Replay | chatbot_demo.py:31-56 | after a script the canned loop has made one call and shown one reply per prompt |
| Session.ReplayExtends | chatbot_demo.py:31-56 | one prompt more keeps the earlier prompts and replies and adds one of each and two history lines |
| Session.ReplayReplies | chatbot_demo.py:40-53 | the k-th reply is the reply made of the k-th call |
| Session.ReplayHistory | chatbot_demo.py:31-53 | the history holds every prompt of the script with its reply, in order |
| Session.ReplayPromptAt | chatbot_demo.py:35-40 | the k-th prompt renders the history left by the k turns before it plus the k-th Human line |
| Session.CannedTurns | chatbot_demo.py:23-56 | the canned demo makes three calls with the three accumulated prompts, shows their three replies and leaves six history lines that are well formed |
| Session.RunCanned | chatbot_demo.py:29-56 | the loop over a `Conversation` does exactly what `Replay` specifies, with the reply of call k taken from raw text `generate(k)` |
| Session.NextCalls | chatbot_demo.py:85-112 | only a line that says something calls the model; `clear` forgets the history and keeps the calls made; an empty line changes nothing |
| Session.Interact | chatbot_demo.py:73-115 | the interactive loop makes one inference call, and shows one reply, for each line said before the first quit |
| Session.InteractCommands | chatbot_demo.py:81-91 | a quit command ends the loop with the trace unchanged; `clear` empties the history and goes on; an empty line goes on unchanged |
| Session.InteractLine | chatbot_demo.py:75-112 | the same, stated for a typed line: each case of the line's stripped, lower-cased text, and one turn on the stripped line otherwise |
| Session.InteractIgnoresAfterQuit | chatbot_demo.py:81-83 | nothing after a quit word has any effect |
| Session.InteractExtends | chatbot_demo.py:93-99 | the loop only adds prompts: the earlier ones stay as they were |
| Session.NextDependsOnHistory | chatbot_demo.py:85-112 | one command with the same history and call count gives the same next history and the same new prompts |
| Session.InteractDependsOnHistory | chatbot_demo.py:73-112 | what the loop does next depends only on the history and on the number of calls made |
| Session.ClearForgets | chatbot_demo.py:85-88 | after `clear` the rest of the session no longer depends on the conversation before it |
| Session.NextInvariant | chatbot_demo.py:85-112 | one command keeps the history well formed and extends prompts and replies together |
| Session.InteractInvariant | chatbot_demo.py:73-112 | between turns the history stays well formed, calls and replies stay paired, earlier ones are kept, and each new reply is the reply made of its own call |
| Session.Obey | chatbot_demo.py:85-115 | one pass of the loop body changes the conversation and the calls made exactly as `Next` says: `clear` empties the history, an empty line changes nothing, a line said is one turn |
| Session.RunInteractive | chatbot_demo.py:71-115 | the loop over a `Conversation` does exactly what `Interact` specifies for the classified lines |
| Menu.ChooseModel | chatbot_demo.py:146-157 | the stripped answer when it is a key of the table, otherwise key `"1"`; a non-empty answer that is not a key is reported as invalid |
| Menu.ChooseModelStable | chatbot_demo.py:152-157 | answering with the chosen key chooses it again and reports nothing |
| Menu.ModelChoiceIgnoresSpaces | chatbot_demo.py:147-155 | whitespace around the model answer never changes the model it selects, or what is reported |
| Menu.ModeChoiceIgnoresSpaces | chatbot_demo.py:198-208 | whitespace around the mode answer never changes the mode it selects, or what is reported |
| Menu.MaxTokens | chatbot_demo.py:181 | `max_tokens` is 512 exactly when the name is `facebook/opt-125m`, otherwise 1024 |
| Menu.TokensFitContext | chatbot_demo.py:119-181 | every model in the table gets a budget within its `max_len`, and only entry `"1"` gets 512 |
| Menu.ChooseMode | chatbot_demo.py:197-209 | only the stripped answer `"2"` runs the interactive loop; a non-empty answer other than `"1"` and `"2"` is reported as invalid |
| Demo.RunDemo | chatbot_demo.py:146-209 | the menu rules pick model, budget and mode; a failed load ends the run; otherwise the chosen loop runs as its specification says |
| Demo.LoopsWellBehaved | chatbot_demo.py:203-209 | whichever loop runs leaves a well-formed history with one reply per call, reply k made of call k |
| Demo.DemoWellBehaved | chatbot_demo.py:164-209 | a demo that ran used a budget within the model's context length and left a well-formed history whose every reply is the cleaned text of its own call |

## Left out

- vLLM itself is not modelled: `LLM(...)`, `SamplingParams(...)` and `llm.generate`. The raw text of the k-th call is the parameter `generate(k)`. The sampling settings, including `max_tokens`, therefore do not constrain it.
- Loading the model is not modelled. Whether it succeeds is the parameter `loads` of `Demo.RunDemo`. Its error messages are not modelled.
- The environment variables set before the import (chatbot_demo.py:9-13) are process-wide settings with no effect on the logic.
- Console output is not modelled: the banners, the thinking indicator and the printed replies. Console input is a list of lines given in advance, and a missing line (`None`) stands for `EOFError` or `KeyboardInterrupt`. Running out of listed lines ends the interactive loop as end of input does.
- The floating-point sampling values (temperature 0.8, top_p 0.95, repetition penalty 1.2) pass through unchanged, so they are left out.
- The `path` and `max_len` of the chosen model are passed only to the loader. The model records them in the `ModelInfo` table. `max_len` appears only in the lemmas `Menu.TokensFitContext` and `Demo.DemoWellBehaved`, which prove that the budget fits it.
- Text.Lower: lower-cases ASCII letters only, while Python's `str.lower()` maps every letter. The result is only compared with `quit`, `exit`, `q` and `clear`. Outside ASCII, only the Kelvin sign lowers to an ASCII letter (`k`), and none of those words contains a `k`. So the commands recognised are the same; the model just does not carry the full mapping.
- Text.Strip: removes the characters CPython's `str.isspace()` accepts, which is the set `str.strip()` removes. Those characters are written out explicitly.
- The lines the interactive loop reads are stripped once, on reading (`input(...).strip()`). `Session.Classify` does the same, so `Say` carries the stripped line.
