# Onboarding prompt chain: a Dafny model

The system runs an employee-onboarding workflow as a chain of three prompts to a local
language model behind an HTTP generation endpoint. This project models its core:

- **The generation client** (`LLMRouter.generate`, `_format_markdown`), in `router_client.dfy`.
  The client builds the request body. It rejects a failing HTTP status and reads the
  `response` member, defaulting to `''`. When the text holds `<think>`, it keeps only what
  follows the last `</think>`, stripped. It then collapses all whitespace to single
  spaces, adds a leading newline when the collapsed text starts with `#`, and wraps the
  result as `{"message": {"content": …}}`. The network exchange is a parameter,
  `backend: HttpCall -> Exchange`; `Client(config, backend)` is the client as a function
  from prompt to reply.
- **The chain** (`OnboardingChain`), in `onboarding_chain.dfy`: the requirements check and
  the three steps. Each step builds an f-string prompt from the state, calls the generator,
  and returns a one-key fragment. The chain takes the generator as a function
  `string -> Result<Reply, Error>`. A Python exception is a `Failure`.
- **The state** (`EmployeeState`), in `onboarding_state.dfy`: the dictionary as it is
  used at run time. Every key may be absent. `update` with a one-key fragment is `Merge`.
- **The driver** (`main`), in `driver.dfy`. It validates, then runs the three steps in
  order. Each fragment is merged into the same dictionary in place: the `EmployeeData`
  class, whose `Update` modifies its `state` field. The first exception ends the run and
  keeps whatever was merged before it. The method `RunOnboarding` is proved equal to the
  function `Onboard`, and the lemmas about the run are stated about `Onboard`.
- **Python string operations** (`in`, `join`, `split(sep)`, `split()`, `strip()`), in
  `text.dfy`, with their own lemmas. For example, `sep.join(s.split(sep)) == s`, and
  `' '.join(ws).split() == ws` for words `ws`.

Four points where the code does something a reader might not expect:

- **Status gate.** Lines 28-30 of `src/llm/router_client.py` call `raise_for_status()` only
  when the status is not 200. The model takes `raise_for_status()` as current httpx
  releases define it: it raises for every status outside 200..299. So a 201..299 reply
  goes through like a 200 (`GenerateStatusGate`). `setup.py` leaves httpx unpinned. Under
  older releases, which raise only for 4xx and 5xx, a 1xx or 3xx reply would also go
  through; the model does not cover that case.
- **Unclosed tag.** Text holding `<think>` but no `</think>` is only stripped, and it keeps
  its `<think>` (`StripThinkUnclosed`).
- **Formatting runs once.** `_format_markdown` collapses all whitespace before splitting
  on `\n`, so it always sees exactly one line. The only newline its output can hold is
  the leading one added for a `#` at the very start. A header is therefore not separated
  from the text after it (`FormattedHeaderThenText`). `FormatMarkdown` runs the two phases
  as written and is proved equal to the closed form `Formatted`.
- **Prompt indentation.** The triple-quoted prompt templates keep the eight spaces of
  source indentation on every continuation line, the blank line included. The template
  constants reproduce that text.

## Model

| member | source | states |
|---|---|---|
| RouterClient.BuildCall | src/llm/router_client.py:13-26 | The POST goes to `base_url + "/api/generate"`. Its body carries the configured model, the prompt, `stream` false, and options 2048 / 0.7 / 0.9. The timeout is 120 seconds. |
| Text.Join | src/llm/router_client.py:55 | No contract of its own: `sep.join(parts)`. Specified by `Text.JoinSplit` and `Text.WordsOfJoin`. |
| Text.Contains | src/llm/router_client.py:36 | No contract of its own: Python's `t in s`, true when `t` occurs at some index. Used by `StripThinkUntagged`, `StripThinkUnclosed`, `AllSpaceHasNoTag` and `Text.LastPieceOfSplit`. |
| Text.Split | src/llm/router_client.py:37 | The contract says only that `s.split(sep)` has at least one piece. It is specified further by `Text.JoinSplit` and `Text.LastPieceOfSplit`. |
| Text.Last | src/llm/router_client.py:37 | No contract of its own: `xs[-1]`. Specified, for a split, by `Text.LastPieceOfSplit` and `Text.AfterLastOccurrence`. |
| Text.JoinSplit | src/llm/router_client.py:37 | Joining the pieces of `s.split(sep)` with `sep` gives `s` back. |
| Text.LastPieceOfSplit | src/llm/router_client.py:37 | `s.split(sep)[-1]` is a suffix of `s` without `sep`. It is all of `s` exactly when `sep` does not occur, and otherwise comes right after an occurrence of `sep`. |
| Text.AfterLastOccurrence | src/llm/router_client.py:37 | For a separator whose occurrences cannot overlap, the last piece is the text after the last occurrence. |
| Text.Words | src/llm/router_client.py:55 | `s.split()`. The contract: every piece is a non-empty run without whitespace. Specified further by `Text.WordsOfJoin` and `Text.WordsEmptyIff`. |
| Text.WordsOfJoin | src/llm/router_client.py:55 | `' '.join(ws).split() == ws` for words `ws`. |
| Text.WordsEmptyIff | src/llm/router_client.py:55 | `s.split()` is empty exactly when `s` is all whitespace. |
| Text.JoinWordsSingleSpaced | src/llm/router_client.py:55 | Words joined by `' '` leave single spaces only, and the result is empty exactly when there are no words. |
| Text.Strip | src/llm/router_client.py:37 | No contract of its own: `s.strip()`. Specified by `Text.StripFacts`, `Text.StripPadded` and `Text.StripKeepsOccurrence`. |
| Text.StripPadded | src/llm/router_client.py:37 | A word with one space on each side strips to the word. |
| Text.StripKeepsOccurrence | src/llm/router_client.py:37 | Stripping keeps every occurrence of a text that neither starts nor ends with whitespace. |
| RouterClient.StripThink | src/llm/router_client.py:36-37 | No contract of its own. Specified by `StripThinkUntagged`, `StripThinkAfterLastClose`, `StripThinkUnclosed` and `StripThinkBlock`. |
| RouterClient.StripThinkUntagged | src/llm/router_client.py:36 | Text without `<think>` passes through unchanged. |
| RouterClient.StripThinkAfterLastClose | src/llm/router_client.py:36-37 | For text with `<think>` whose last `</think>` starts at k, the result is the stripped text after that tag, and it holds no `</think>`. |
| RouterClient.LastPieceIsRest | src/llm/router_client.py:37 | `split('</think>')[-1]` is exactly the text after the last `</think>`. |
| RouterClient.StrippedRestHasNoClose | src/llm/router_client.py:37 | The stripped text after the last `</think>` holds no `</think>`. |
| RouterClient.StripThinkUnclosed | src/llm/router_client.py:36-37 | With `<think>` but no `</think>`, the result is the whole text stripped, still holding `<think>`. |
| RouterClient.StripThinkBlock | src/llm/router_client.py:36-37 | A reasoning block followed by an answer without `<` leaves exactly the stripped answer. |
| Text.StripFacts | src/llm/router_client.py:37 | `strip()` keeps a slice of its input. What it cuts from either end is all whitespace, and what it keeps neither starts nor ends with whitespace. |
| RouterClient.StripThinkExample | src/llm/router_client.py:36-37 | `"<think>reasoning here</think>KEEP THIS"` becomes `"KEEP THIS"`. |
| RouterClient.ThinkingAnswerStripped | src/llm/router_client.py:36-37 | `"<think>plan</think> OK "` is reduced to `"OK"`. |
| RouterClient.CloseTagUnbordered | src/llm/router_client.py:37 | Two occurrences of `</think>` never overlap, so "after the last one" is well defined. |
| RouterClient.Collapse | src/llm/router_client.py:55 | No contract of its own. Specified by `CollapseFacts` and `SingleSpacedHasNoNewline`. |
| RouterClient.MarkHeader | src/llm/router_client.py:61-64 | No contract of its own: one line, with a newline put before it when it starts with `#`. Specified through `FormatMarkdown` and `FormattedShape`. |
| RouterClient.Formatted | src/llm/router_client.py:52-66 | No contract of its own: the closed form of `_format_markdown`. `FormatMarkdown` is proved equal to it, and it is specified by `FormattedShape`, `FormattedWords`, `FormattedIdempotent`, `FormattedHeaderThenText` and `FormattedBlank`. |
| RouterClient.CollapseFacts | src/llm/router_client.py:55 | `' '.join(content.split())` keeps the words in order and leaves single spaces only. It is empty exactly for all-whitespace text. |
| RouterClient.SingleSpacedHasNoNewline | src/llm/router_client.py:55-58 | Collapsed text holds no newline, so the later `split('\n')` sees one line. |
| RouterClient.FormatMarkdown | src/llm/router_client.py:52-66 | The two phases as written (collapse, then the header loop over lines and the join) equal `Formatted`. |
| RouterClient.FormattedShape | src/llm/router_client.py:52-66 | The output has no tab and no two spaces in a row. Its only newline is a leading one, present exactly when the collapsed text starts with `#`. |
| RouterClient.FormattedWords | src/llm/router_client.py:52-66 | Formatting keeps the sequence of words of its input. |
| RouterClient.FormattedIdempotent | src/llm/router_client.py:52-66 | Formatting formatted text changes nothing. |
| RouterClient.FormattedHeaderThenText | src/llm/router_client.py:55-66 | A header line followed by a text line comes out as one line with a leading newline: `"# Heading\ntext"` becomes `"\n# Heading text"`. |
| RouterClient.WordFormatted | src/llm/router_client.py:52-66 | A single word that does not start with `#` is its own formatting. A word starting with `#` gets a leading newline instead (`FormattedShape`). |
| RouterClient.OkFormatted | src/llm/router_client.py:52-66 | `"OK"` is its own formatting. |
| RouterClient.FormattedBlank | src/llm/router_client.py:52-66 | The output is empty exactly when the input is all whitespace. |
| RouterClient.RaiseForStatus | src/llm/router_client.py:30 | No contract of its own: httpx's `raise_for_status()`, failing outside 200..299. Specified by `GenerateStatusGate`. |
| RouterClient.CheckStatus | src/llm/router_client.py:28-30 | No contract of its own: only a status other than 200 reaches `raise_for_status()`. Specified by `GenerateStatusGate`. |
| RouterClient.Respond | src/llm/router_client.py:28-42 | No contract of its own: the status gate, the `response` member defaulting to `''`, tag stripping, formatting and wrapping. Specified by `GenerateStatusGate`, `GenerateBlankResponse` and `GenerateContentFormatted`. |
| RouterClient.Generate | src/llm/router_client.py:10-42 | No contract of its own: `BuildCall`, one exchange, then `Respond`. Specified by `GenerateStatusGate`, `GenerateBlankResponse` and `GenerateContentFormatted`. |
| RouterClient.Client | src/llm/router_client.py:10-42 | No contract of its own: `generate` as a function from prompt to reply. Specified by `Driver.ThinkingBackendAnswersOk` and, through `Generate`, by the `Generate*` lemmas. |
| RouterClient.GenerateStatusGate | src/llm/router_client.py:28-30 | A transport failure comes out as that failure. A status outside 2xx raises with the status and raw body. A response succeeds exactly when its status is 2xx. |
| RouterClient.AllSpaceHasNoTag | src/llm/router_client.py:36 | All-whitespace text never holds `<think>`. |
| RouterClient.GenerateBlankResponse | src/llm/router_client.py:32-42 | A 2xx reply with no `response` member, or an all-whitespace one, gives `{"message": {"content": ""}}`. |
| RouterClient.GenerateContentFormatted | src/llm/router_client.py:32-42 | Returned content is a fixed point of formatting and keeps the words of the tag-stripped backend text. |
| OnboardingState.Get | src/chains/onboarding_chain.py:87 | No contract of its own: `state.get(key)`, None for an absent key. Specified by `GetDetermines` and by `Merge`'s contract. |
| OnboardingState.GetDetermines | src/models/onboarding_state.py:3-12 | A state is determined by what `get` returns for each of its nine keys, so `Merge`'s two `Get`-based clauses pin down the whole merged record. |
| OnboardingState.Merge | src/main.py:38-48 | `update` with a one-key fragment sets that key to the fragment's value. Every other key keeps its value. |
| OnboardingChain.Truthy | src/chains/onboarding_chain.py:87 | No contract of its own: Python truthiness of `state.get(field)`, false for absent, `''` and `[]`. Specified by `ValidatePassIff`. |
| OnboardingChain.ValidateRequirements | src/chains/onboarding_chain.py:86-89 | No contract of its own. Specified by `ValidatePassIff` and `ValidateIgnoresOtherFields`. |
| OnboardingChain.ValidatePassIff | src/chains/onboarding_chain.py:86-89 | The check passes exactly when name, role, department and start date are all present and non-empty. |
| OnboardingChain.ValidateIgnoresOtherFields | src/chains/onboarding_chain.py:86-89 | Only the four required fields influence the verdict. |
| OnboardingChain.Require | src/chains/onboarding_chain.py:26-29 | No contract of its own: `state[key]`, a KeyError naming the key when it is absent. Used for every placeholder of lines 26-29, 47-49 and 67-69. Specified by the `*PromptSpec` lemmas. |
| OnboardingChain.Interpolate | src/chains/onboarding_chain.py:25-31 | No contract of its own: an f-string, its literal chunks with the values between them. Specified by `InterpolateInOrder` and `InterpolateEndsWith`. |
| OnboardingChain.InterpolateInOrder | src/chains/onboarding_chain.py:25-31 | An f-string holds its interpolated values verbatim, in order. |
| OnboardingChain.InterpolateEndsWith | src/chains/onboarding_chain.py:25-71 | An f-string ends with its last literal chunk. |
| OnboardingChain.PromptsDistinct | src/chains/onboarding_chain.py:25-71 | The welcome, training and final prompt texts are pairwise different, whatever values fill them. |
| OnboardingChain.WelcomeText | src/chains/onboarding_chain.py:25-31 | No contract of its own: the welcome template filled with its four values. Specified by `PromptsDistinct`, `WelcomePromptSpec` and `EchoedWelcomeHoldsFields`. |
| OnboardingChain.TrainingText | src/chains/onboarding_chain.py:46-51 | No contract of its own: the training template filled with the role, the joined skills and the department. Specified by `PromptsDistinct` and `TrainingPromptSpec`. |
| OnboardingChain.FinalText | src/chains/onboarding_chain.py:66-71 | No contract of its own: the final template filled with both packages and the joined access levels. Specified by `PromptsDistinct` and `FinalPromptSpec`. |
| OnboardingChain.WelcomePrompt | src/chains/onboarding_chain.py:25-31 | No contract of its own: the `WelcomeChunks` template filled from the state. Specified by `WelcomePromptSpec`. |
| OnboardingChain.TrainingPrompt | src/chains/onboarding_chain.py:46-51 | No contract of its own: the `TrainingChunks` template filled from the state. Specified by `TrainingPromptSpec`. |
| OnboardingChain.FinalPrompt | src/chains/onboarding_chain.py:66-71 | No contract of its own: the `FinalChunks` template filled from the state. Specified by `FinalPromptSpec`. |
| OnboardingChain.WelcomePromptSpec | src/chains/onboarding_chain.py:25-31 | The prompt exists exactly when the four fields are present, and holds them in order. Otherwise the KeyError names the first absent key in reading order. |
| OnboardingChain.TrainingPromptSpec | src/chains/onboarding_chain.py:46-51 | The prompt exists exactly when role, skills and department are present. It holds the role, the skills joined by `", "`, and the department, in order. Otherwise the KeyError names the first absent key. |
| OnboardingChain.FinalPromptSpec | src/chains/onboarding_chain.py:66-71 | The prompt exists exactly when both generated packages and the access levels are present. It holds them in order, the access levels joined by `", "`. Otherwise the KeyError names the first absent key. |
| OnboardingChain.WelcomeStep | src/chains/onboarding_chain.py:15-34 | No contract of its own. Specified by `StepsUseTemplates`, `StepsNeedTheirKeys` and `StepsReadOnlyTheirKeys`. |
| OnboardingChain.TrainingStep | src/chains/onboarding_chain.py:36-54 | No contract of its own. Specified by `StepsUseTemplates`, `StepsNeedTheirKeys` and `StepsReadOnlyTheirKeys`. |
| OnboardingChain.FinalStep | src/chains/onboarding_chain.py:56-74 | No contract of its own. Specified by `StepsUseTemplates`, `StepsNeedTheirKeys` and `StepsReadOnlyTheirKeys`. |
| OnboardingChain.StepsUseTemplates | src/chains/onboarding_chain.py:25-74 | With its keys present, each step asks the generator for exactly its template text. It succeeds exactly when that call does, and then returns only its own key holding the reply's `message.content`. A failure of the call is the step's failure. |
| OnboardingChain.StepsNeedTheirKeys | src/chains/onboarding_chain.py:25-71 | A step whose prompt raises a KeyError fails with that KeyError. |
| OnboardingChain.StepsReadOnlyTheirKeys | src/chains/onboarding_chain.py:25-71 | Each step reads only the keys its prompt interpolates. Two states that agree on them give the same result. |
| OnboardingChain.EchoedWelcomeHoldsFields | src/chains/onboarding_chain.py:25-34 | With a generator that echoes its prompt, the welcome package holds the four fields in order. |
| Driver.Onboard | src/main.py:30-60 | No contract of its own: the run as a function. `RunOnboarding` is proved equal to it. It is specified by `OnboardRejects`, `OnboardKeepsInputs`, `OnboardCompletes`, `OnboardAborts` and `OnboardFailsOnSecondCall`. |
| Driver.EmployeeData.constructor | src/main.py:19-28 | The dictionary starts as the given state. |
| Driver.EmployeeData.Update | src/main.py:38 | `employee_data.update(fragment)` replaces the state by its merge with the fragment. |
| Driver.RunOnboarding | src/main.py:30-60 | Updating the dictionary in place gives the outcome, final dictionary and prompt sequence of `Onboard` on the initial dictionary. |
| Driver.OnboardRejects | src/main.py:34-56 | When a required field is missing or empty, no step runs, no prompt is sent, and the dictionary is unchanged. |
| Driver.OnboardKeepsInputs | src/main.py:30-60 | Whatever the outcome, the six input keys come out as they went in. |
| Driver.OnboardCompletes | src/main.py:34-53 | The run completes exactly when the check passes, skills and access levels are present, and the generator answers all three prompts. The final prompt is built from the first two answers. The prompts are then exactly those three, the three keys hold the answers, and nothing else changes. |
| Driver.OnboardAborts | src/main.py:37-60 | A failing step ends the run with its exception. Keys merged before it stay: there is no rollback. The prompt log is exactly the prompts of the steps reached: `[p1]` when welcome fails; `[p1]` plus the training prompt, if one was built, when training fails; `[p1, p2]` plus the final prompt, if one was built, when the final step fails. |
| Driver.OnboardFailsOnSecondCall | src/main.py:37-60 | When the training call fails, the state is the input with the welcome answer stored; training materials and final package stay absent. The prompts are exactly the welcome and training texts, and the failure is what the run reports. |
| Driver.SampleEmployee | src/main.py:19-28 | No contract of its own: the literal employee dictionary of `main`. Used by `SamplePasses` and `SampleRunsEndToEnd`. |
| Driver.SamplePasses | src/main.py:19-28 | The sample employee passes the requirements check. |
| Driver.ThinkingBackendAnswersOk | src/llm/router_client.py:10-42 | A backend answering 200 with a reasoning block and ` OK ` makes the client reply `OK` to every prompt. |
| Driver.OnboardUniformAnswer | src/main.py:34-53 | A generator that answers every prompt with the same content completes any run that passes the check and has skills and access levels. That content is then in all three generated keys, after exactly three prompts. |
| Driver.SampleRunsEndToEnd | src/main.py:19-53 | The sample employee, run through the client against that backend, completes with `OK` in all three generated keys, after exactly three prompts. |

## Left out

- HTTP transport, the `AsyncClient`, the timeout and `async`/`await` are reduced to one call of the `backend` function. The request carries the timeout value, but waiting is not modelled.
- JSON decoding of the reply (`response.json()`) is not modelled. Three cases have no counterpart: a body that is not JSON (`json()` raises); a body that decodes to something other than an object, such as `[]`, `null` or a number (`result.get` at line 33 raises `AttributeError`); and an object whose `response` member is not a string. `responseField` is that member when it is a string.
- The messages printed by `generate` and `main` are not modelled. Only which of them `main` prints is modelled, as the run's `Outcome`.
- The `except` blocks of `generate` log and re-raise, so they do not change what propagates. They appear as the failure passing through unchanged.
- Only ASCII whitespace is modelled. Python's `str.split()` and `str.strip()` also treat non-ASCII whitespace (for example U+00A0 and U+2028) as whitespace.
- The option values 0.7, 0.9 and 120.0 are exact `real` constants, not IEEE doubles.
- A key holding `None` is modelled as an absent key. For `validate_requirements` this agrees: `None` is falsy. In the steps it does not. The four scalar placeholders and the two package placeholders would interpolate the text `"None"`. The two joined lists, `', '.join(state['skills'])` and `', '.join(state['access_levels'])`, would raise `TypeError`. In both cases the model reports a `KeyError` for that key instead. `validate_requirements` does not read `skills` or `access_levels`, so a run with `skills` set to `None` reaches this case.
- A value that is neither a string nor a list of strings is not modelled. Examples are `skills` given as a plain string, which `join` would split into characters, or a list with a non-string item, on which `join` raises.
- `Backend` and `Generator` are pure functions of their request. A backend that answers the same request differently on different calls (it samples at temperature 0.7) cannot be expressed. Neither can a stub that counts its calls. Within one run nothing depends on this, because the three prompts a run sends are always different (`PromptsDistinct`).
- `src/config/settings.py` (model name and base URL) becomes the `Config` parameter. `setup.py` is not part of this model.
- `LLMRouter.__init__` and `OnboardingChain.__init__` only store their argument. They appear as the `Config` and `Generator` parameters.
