# Anomaly analysis pipeline, modelled in Dafny

This project models the core of a four-stage anomaly analysis agent
(`src/agent_graph.py`). The agent is a line of four graph nodes that
share one state record:

- **planner** asks the language model for a plan. It keeps the reply's
  lines that start with "step" or with "1."–"4.", stripped.
- **executor** renames the plan steps (`rename_plan_steps`). It runs one
  model call per step and derives a result key from each renamed step.
  It then folds the `(key, value)` pairs, in plan order, into one
  dictionary.
- **reflector** asks the model to review the "assign", "classify" and
  "justify" entries of that dictionary. A missing entry reads as `''`.
- **aggregator** keeps the dictionary when the review starts with
  "all good". Otherwise it asks the model to rewrite the justification and
  stores the reply under "justify".

The language model is a parameter `llm: string -> Reply`. A call either
answers with a `content` or raises an exception that carries its text.
The model is an oracle: within one run, the same prompt gets the same
reply. An exception raised in the planner, the reflector or the rewrite
propagates and ends the run. An `Exception` raised by a step's call
becomes that step's value. The model takes the console output to raise
nothing (see "## Left out").

Modules, in dependency order:

- `Text` (text.dfy): the Python string operations the code uses.
  - `strip`, with Python's full whitespace set.
  - `lower`, `\w` and `\d`, over ASCII.
  - `startswith`, `in`, `split(":")[0]`.
  - `splitlines`, with Python's full set of line boundaries; "\r\n"
    counts as one boundary.
- `Llm` (llm.dfy): the model and the `Result` of a stage.
- `Planner` (planner.dfy): the plan prompt, the line filter and the plan
  stage.
- `Renamer` (renamer.dfy): labelling, the `^\d+\.\s*(Anomaly\s*\d+:)?`
  rewrite and the renaming loop.
- `Keys` (keys.dfy): the key expression of `run_step`.
- `Executor` (executor.dfy): `run_step`, the gather, the fold loop and
  the stage as a whole.
- `Reflection` (reflection.dfy): `reflect_node` and `aggregator`.
- `Pipeline` (pipeline.dfy): `build_graph`, the walk along its edges and
  the run of the whole graph. It records the prompts the run sends, in
  order.

### Result keys: what the code derives and what its readers look up

The readers of the step outputs look them up under four fixed keys. The
reflector reads "assign", "classify" and "justify"
(`src/agent_graph.py:86-88`). The aggregator reads "justify"
(`src/agent_graph.py:104`). The report printer reads "assign",
"classify", "justify" and "recommend", with 'N/A' for a missing one
(`src/main.py:52-56`). The executor, however, derives every key from the
renamed step's text before its first colon (`src/agent_graph.py:56`).
The model follows the code, and proves what follows from it:

- A step numbered "1."–"4." is renamed to its label. Its key is the
  label's slug, such as `confidence_scoring` or `justification`
  (`Keys.NumberedStepKey`).
- A step that starts with "Step" is not renamed, because the rewrite needs
  a leading digit. Its key starts with "step"; for "Step 2: …" it is
  `step_2` (`Keys.StepLineKey`, `Keys.StepNumberKey`).
- So no run ever produces the keys "assign", "classify", "justify" or
  "recommend" (`Pipeline.ExecutorsNeverPositional`). The reflector
  always receives three empty fields. A rewrite never replaces a step's
  output: it adds a new "justify" entry (`Pipeline.ReviewSeesEmptyFields`).
  The report printer is not part of this model; by the same keys it
  finds only the "justify" entry, and only after a rewrite.

## Model

| member | source | states |
|---|---|---|
| Planner.Plan | src/agent_graph.py:17-41 | With console output taken to raise nothing, the plan call raises exactly when the stage fails, and the failure carries the exception's text. Otherwise every plan step is stripped and either starts with "step" (in any case) or with "1."–"4.". |
| Planner.KeptPositions | src/agent_graph.py:34-38 | The positions of the accepted lines: each is in range and accepted, they increase, and every accepted line from `from` on is among them. |
| Planner.ExtractStepsExact | src/agent_graph.py:33-38 | The plan is, in order, exactly the stripped lines the filter accepts: as many steps as accepted lines, and step k is the k-th accepted line stripped. |
| Planner.PlanNoLongerThanLines | src/agent_graph.py:33-38 | A plan never has more steps than the reply has lines. |
| Planner.IndentedLineNeedsNumber | src/agent_graph.py:37 | A line whose first character is blank is kept if and only if its stripped form starts with "1."–"4.". The "step" test reads the raw line. |
| Planner.BlankStartNotStep | src/agent_graph.py:37 | A line that starts with whitespace never passes the "step" test. |
| Planner.KeptLineShape | src/agent_graph.py:35-37 | Every accepted line, once stripped, is a stripped text that starts with "step" or "1."–"4.". |
| Planner.ExtractedStepsShape | src/agent_graph.py:34-38 | Every step the filter returns is stripped and has that shape. |
| Text.SplitLines | src/agent_graph.py:33 | `splitlines` yields no more lines than characters, and no line holds a line boundary. |
| Text.SplitJoinLines | src/agent_graph.py:33 | `splitlines` undoes a join with "\n" of boundary-free lines whose last line is not empty. |
| Text.StripIdempotent | src/agent_graph.py:35 | Stripping twice is stripping once. |
| Text.StripBy | src/agent_graph.py:56 | `strip(chars)` leaves no stripped character at either end, and yields the empty string exactly when every character is one to strip. |
| Text.BeforeColon | src/agent_graph.py:56 | `split(":")[0]` is a colon-free prefix that ends at the first colon or the end of the text. |
| Renamer.ClassifyPrecedence | src/agent_graph.py:136-145 | The label is Additional Analysis exactly when no cue of any label occurs. Otherwise some cue of the chosen label occurs, and no cue of an earlier-ranked label does. |
| Renamer.AnomalyTagMatches | src/agent_graph.py:147 | When the text opens with "Anomaly", optional whitespace, one or more digits and ':', the optional group matches, and its match ends at that ':'. |
| Renamer.AnomalyTagSound | src/agent_graph.py:147 | Any match of the optional group is "Anomaly", optional whitespace, one or more digits and ':', ending at that ':'. |
| Renamer.PrefixMatchParts | src/agent_graph.py:147 | Digits, a '.' and a maximal run of whitespace are matched, with the optional group tried right after the whitespace. |
| Renamer.PrefixMatchSound | src/agent_graph.py:147 | Every match is digits, a '.', a maximal run of whitespace (all of `s[d+1..p]` is whitespace and `s[p]` is not), then the optional group's match. |
| Renamer.PrefixMatchExample | src/agent_graph.py:147 | "1. Anomaly 3: x" matches "1. Anomaly 3:" (13 characters): the space after the dot and the tag are taken, the space after the tag's ':' is not, so the rename leaves two spaces before "x". |
| Renamer.PrefixMatchExampleRest | src/agent_graph.py:147 | What is left of "1. Anomaly 3: x" after the match is " x", so the renamed step is the label, ": " and " x". |
| Renamer.PrefixMatchIff | src/agent_graph.py:147 | The pattern matches exactly when the text opens with one or more digits and a dot. A match covers all those digits and the dot. |
| Renamer.RenameStepCases | src/agent_graph.py:133-147 | A step that does not open with digits and a dot comes back stripped and unchanged. Otherwise exactly its matched prefix is replaced by "<label>: ". |
| Renamer.RenamePlanSteps | src/agent_graph.py:130-150 | The loop returns one renamed step per input step, in order: element i is the renaming of input i. |
| Keys.ReplaceNonWordRuns | src/agent_graph.py:56 | After `re.sub(r"[^\w]+", "_", …)` only word characters remain. |
| Keys.ReplaceWordPrefix | src/agent_graph.py:56 | A leading run of word characters is copied unchanged. |
| Keys.ReplaceRun | src/agent_graph.py:56 | A whole run of non-word characters, followed by the end or by a word character, becomes one "_". |
| Keys.ReplaceKeepsAlnums | src/agent_graph.py:56 | That substitution keeps every letter and digit, in order. |
| Keys.SlugProperties | src/agent_graph.py:56 | The slug spells the text's letters and digits in order. It is empty exactly when the text has none, and otherwise it is a well-formed key. |
| Keys.StepKey | src/agent_graph.py:56 | Every derived key is non-empty, made of word characters only, and has no "_" at either end. |
| Keys.FallbackKey | src/agent_graph.py:56 | `step_{idx}` is a well-formed key. |
| Text.DecimalRoundTrip | src/agent_graph.py:56 | The digits written for `idx` denote `idx`. |
| Keys.FallbackKeyInjective | src/agent_graph.py:56 | Two positions with the same `step_{idx}` key are the same position. |
| Keys.StepKeyFallback | src/agent_graph.py:56 | The key is `step_{idx}` when the text before the colon has no letter or digit. Otherwise the key spells exactly those letters and digits. |
| Keys.LabelNameKey | src/agent_graph.py:136-145 | Each label name, lower-cased, has no colon, and its slug is that label's key (`confidence_scoring`, `anomaly_classification`, `justification`, `follow_up_recommendation`, `additional_analysis`). |
| Keys.NumberedStepKey | src/agent_graph.py:147 | A step that opens with digits and a dot gets its label's key, whatever its position. |
| Keys.StepLineNotRenamed | src/agent_graph.py:147 | A step that starts with "step" in any case is left unrenamed. |
| Keys.StepLineKey | src/agent_graph.py:56 | The key of a step that starts with "step" in any case also starts with "step". |
| Keys.StepNumberKey | src/agent_graph.py:56 | "Step N: text" keeps its text, and its key is `step_N` at every position. |
| Executor.RunStep | src/agent_graph.py:55-67 | The key of every step run is well formed. |
| Executor.RunStepKey | src/agent_graph.py:56-58 | The key is computed before the call, so it is the same whatever the call returns or raises. |
| Executor.RunStepValue | src/agent_graph.py:59-67 | A call that raises yields the exception's text. A reply yields a stripped value that keeps all of the reply's letters and digits. |
| Executor.ExecutorAsksOnly | src/agent_graph.py:60-73 | Two models that give the same replies to the plan's step prompts give the same step results. The stage depends on no other reply. |
| Executor.FoldKeys | src/agent_graph.py:75-76 | The fold has exactly the keys of the results, so it never has more entries than results. |
| Executor.FoldLastWins | src/agent_graph.py:75-76 | The value stored under a key is the last result with that key. |
| Executor.FoldEntryOrigin | src/agent_graph.py:75-76 | Every entry of the fold comes from the last result that has its key. |
| Executor.FoldOutputs | src/agent_graph.py:75-76 | The loop over the results builds the fold, whose keys are the results' keys. |
| Executor.Execute | src/agent_graph.py:51-78 | The stage's dictionary is the fold of the gathered runs over the renamed plan. |
| Executor.ExecutorKeyOrigin | src/agent_graph.py:51-78 | Every output key is well formed and is the key that some plan step derives at its own position. |
| Executor.ExecutorKeyComplete | src/agent_graph.py:51-78 | Every plan step's derived key is a key of the outputs, whether its call answered or raised. |
| Executor.ExecutorKeys | src/agent_graph.py:51-78 | The outputs have at most one entry per plan step, and every key is well formed. |
| Executor.ExecutorStepValue | src/agent_graph.py:59-76 | A step whose key no later step shares keeps its own value in the outputs: its stripped reply, or the text of the `Exception` its call raised. A step whose call raises an `Exception` never aborts the stage, as long as the console output raises nothing. |
| Reflection.ReflectPromptFields | src/agent_graph.py:85-90 | The review prompt depends on nothing but the "assign", "classify" and "justify" entries. |
| Reflection.Reflect | src/agent_graph.py:82-93 | The review fails exactly when its call raises, and then carries the exception's text. Otherwise the review is stripped. |
| Reflection.ReflectKeepsAlnums | src/agent_graph.py:93 | A review that came back keeps all of the reply's letters and digits. |
| Reflection.AggregateCases | src/agent_graph.py:96-113 | An "all good" review keeps the outputs unchanged. Otherwise the rewrite's exception propagates. Or the keys become the old keys plus "justify", "justify" holds the stripped reply, and every other entry stays as it was. |
| Reflection.AggregateOutputs | src/agent_graph.py:96-113 | The test, the call, and then the copy with its one assignment give the aggregation stage's result. |
| Reflection.RewriteAddsJustify | src/agent_graph.py:103-110 | With no "justify" entry, the rewrite prompt quotes an empty justification, and a successful rewrite adds exactly one entry. |
| Reflection.AllGoodAnyCase | src/agent_graph.py:97 | A review that opens with "All good" in any mix of cases stops the rewrite. |
| Pipeline.Successor | src/agent_graph.py:124-126 | The successor of a node is the target of an edge that leaves it. A node with no outgoing edge has none. |
| Pipeline.Step | src/agent_graph.py:17-113 | No node changes the raw text. |
| Pipeline.BuildGraphPath | src/agent_graph.py:116-128 | From the entry point, the wiring visits planner, executor, reflector and aggregator, once each and in that order. |
| Pipeline.RunIsStaged | src/agent_graph.py:116-128 | A run of the graph, and the prompts it sends, are those of the four stages composed in order, stopping at the first exception. |
| Pipeline.RunStages | src/agent_graph.py:116-128 | A run that raises nowhere ends in the state each stage writes: the plan, then the step outputs of that plan, the review of those outputs, and the aggregate. The raw text is unchanged. A plan call that raises ends the run with its text. |
| Pipeline.PlannerAsksOnly | src/agent_graph.py:17-41 | The plan stage's result depends on the model only through its reply to the plan prompt. |
| Pipeline.ExecutorNodeAsksOnly | src/agent_graph.py:51-78 | The execution stage's result depends on the model only through its replies to the step prompts. |
| Pipeline.ReflectorAsksOnly | src/agent_graph.py:82-93 | The review depends on the model only through its reply to the review prompt. |
| Pipeline.AggregatorAsksOnly | src/agent_graph.py:96-113 | An "all good" review makes the aggregate independent of the model. Otherwise it depends only on the reply to the rewrite prompt. |
| Pipeline.StepAsksOnly | src/agent_graph.py:17-113 | For every node, two models that agree on the prompts listed for it give the same step. So each node's prompt list holds every call that node makes. |
| Pipeline.RunAsksOnly | src/agent_graph.py:116-128 | Along any walk, two models that agree on the prompts the walk records produce the same state and record the same prompts. |
| Pipeline.RunAsksOnlyPrompts | src/agent_graph.py:116-128 | A run of the graph depends on the model only through the prompts it records. |
| Pipeline.PromptCount | src/agent_graph.py:116-128 | A run makes one call for the plan, one per plan step, one for the review, and one more exactly when the review is not "all good". A plan that raises is the only call. By `Pipeline.RunAsksOnlyPrompts` these prompts are the only ones whose replies matter. |
| Pipeline.StepKeyNotPositional | src/agent_graph.py:56 | No plan step, either numbered or starting with "step", derives a key among "assign", "classify", "justify" or "recommend". |
| Pipeline.ExecutorsNeverPositional | src/agent_graph.py:51-78 | No key of a run's outputs is "assign", "classify", "justify" or "recommend". |
| Pipeline.ReviewSentEmptyFields | src/agent_graph.py:82-113 | In every run whose plan came back, including one whose review or rewrite call raises, the prompt sent right after the step prompts is the review prompt built from empty fields. |
| Pipeline.ReviewSeesEmptyFields | src/agent_graph.py:82-113 | In every run that raises nowhere, the review prompt is the one built from empty fields. When the review is not "all good", "justify" was not an output, and the final output has exactly one entry more. |

## Left out

- The model call (`llm.invoke`, `async_invoke`) is a parameter of the model. Its answers are taken as given, and one run gives the same reply to the same prompt.
- `asyncio.gather` and `run_in_executor` concurrency is left out. The gather is modelled as a sequence in plan order, which is the order the code observes.
- Console output (`console.print`) is left out, and the model takes it to raise nothing. That is an assumption, not a fact about the code: the console parses markup in text that comes from the model. That text is the reply's first 120 characters (`src/agent_graph.py:30`), the renamed step (`:57`, before the `try`) and the exception's text (`:66`, inside the `except`). A stray closing tag such as "[/]" in it makes the print raise and ends the run. So Planner.Plan, Executor.ExecutorStepValue and the stage results hold only for text the console prints without error.
- Timing (`time.time`, `time.strftime`) is left out. It affects no returned value.
- The LangGraph `StateGraph` machinery is not modelled: compiling, the state merge of the dictionaries a node returns, and the `llm` state field. A node is modelled as writing its one field.
- Pipeline.Walk: cuts a path after as many edges as the graph has. That covers every path without a cycle, and the graph built here has none.
- Dictionary insertion order is not modelled. A Dafny `map` has no order, which affects only how the outputs would be printed.
- `str.lower` and the regex classes `\w` and `\d` are modelled over ASCII letters and digits. Python applies them to all of Unicode.
- Executor.ExecutorStepValue: only an `Exception` raised by a step's call is caught (`src/agent_graph.py:64`). A `BaseException` that is not an `Exception`, such as `asyncio.CancelledError` or `KeyboardInterrupt`, escapes the gather and ends the run; the model has no such replies.
- The exceptions modelled are the ones a model call raises. Others expected of the model's reply are not, such as a reply with no `content` attribute.
- Pipeline.Initial: the unset fields of the starting state are empty values. Every node writes its field before a later node reads it, so these values are never observed.
- src/web_app.py and src/main.py are not part of this model. They hold the web front end, file loading and report printing.
- No code exists for the anomaly cluster partitioner or for a parser of "Step {i}:" plan regions, so neither is modelled.
