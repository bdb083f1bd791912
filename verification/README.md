# Verified models of the qw3 support scripts

The repository's `scripts/` directory holds the algorithms around the inference
engine: rendering a conversation into the model's prompt, extracting tensors from
sharded files, compiling Unicode tables, analysing attention traces, and a few
searches and mappings. This project models those algorithms in Dafny and proves
what they are relied on for. `dafny verify dfyconfig.toml` checks everything.

| Module | Models |
|---|---|
| `Wrappers`, `Arithmetic`, `Text`, `Lists`, `Sorting` | optional values and errors, small arithmetic, string search and stripping, sequences taken apart at their end, a stable sort |
| `ChatTemplate` | the chat-template renderer: system merging, last-query cutoff, think blocks, tool runs, tool calls |
| `ChatContent`, `ChatReading` | contents given in parts; the turns of a conversation, written out plainly, read back off the rendered text |
| `ThinkBlocks`, `ChatPrefix`, `ChatAccident`, `ChatRuns` | a turn with and without its think block; when a rendered history is a prefix of a longer one; prompts and completions over whole agent runs |
| `ChatShape` | start and end markers of turns; histories with their think blocks erased |
| `ThinkParser`, `ChatReasoning`, `InlineReasoning`, `InlineSeam` | the think parser on any text and against the printed form; reasoning sent inline against reasoning sent separately |
| `ToolCallCodec` | a decoder for printed tool calls |
| `TensorFiles`, `RangeGroups`, `TensorExtract`, `TensorProgram`, `TensorOrder` | the tensor file format, range coalescing, extraction from one shard, extraction into a new file, the order of its tensors |
| `UnicodeTables` | the range-table compiler and the emitted binary search |
| `FiniteDist`, `Averages`, `Coverage` | distributions over block ids and their means, top-k coverage |
| `Divergence`, `DivergenceZero`, `DivergenceScale` | KL and JS divergence, when they vanish, and what they amount to |
| `TraceReader`, `TraceSegments` | trace segmentation, and the segments in terms of sample numbers |
| `Windows`, `WindowContents` | sliding windows, and what each averages |
| `StepLabels`, `LabelPlaces` | step ranges, label placement and selection |
| `MaintenanceLog`, `ExportSuccess` | attribution of maintenance events to requests, and when it succeeds |
| `BudgetFit` | bracketing and bisection of a prompt length |
| `WorkMap` | the prefill grid's block-to-work mapping |
| `Ladder`, `LadderUnits` | printing and parsing a ladder of token counts |

Code that works by loops over changing state is a method (in places a class) proved
equal to a recursive function; the theorems are lemmas about that function. Text is
`seq<char>`, bytes are integers from 0 to 255, and numbers are exact.

Where the code meets a stated promise only under a condition, the condition is part
of the theorem. Eight such findings:

* A prompt with its completion is a prefix of a later prompt if and only if the
  history has a genuine user query, the reply carries no white space at the ends of
  its reasoning and its answer, and no user query was asked in between
  (`ChatRuns.RunPrefix`). Otherwise the two texts differ at a position that both
  have. The one proviso on that second half concerns the first think block dropped:
  its answer does not begin with the think tag and a line end (nor is it the tag alone
  with calls behind it), or its reasoning contains neither `<|im_end|>` nor
  `<tool_call>`. Without the proviso the texts can be equal, and
  `ChatAccident.AgreesByAccident` gives such conversations.
* Any history, with its think blocks erased, is a prefix of a longer one if and only if
  the opening system turn stays, or nothing was printed for it, and no run of tool
  results goes on across the join (`ChatShape.ErasedAppend`); with think blocks, if and
  only if also no new query drops one that was printed (`ChatPrefix.AppendExact`, under
  the same proviso). That the opening turn stays can be relied on, whatever is appended,
  exactly if there are at least two messages, or one that is no system message, or
  nothing was printed (`ChatShape.SettledExactly`). Otherwise a second system message is
  merged into the turn of the first, or a first one into that of the tools
  (`ChatShape.UnsettledSystem`).
* Reasoning sent inline, in front of the answer, gives the prompt of the same reasoning
  sent separately if and only if the reasoning has no closing tag and the answer, behind
  any line ends, begins with neither space nor tab; or if, with a closing tag, the think
  block is printed and the text around the first closing tag already looks as the
  template prints it (`InlineSeam.InlineOrSeparate`).
* The turns of a rendered conversation can be read off its text, by a reader that cuts
  at the end-of-turn markers, if and only if no turn holds that marker
  (`ChatReading.TurnsReadBack`).
* A printed tool call can be read back, by a reader that takes the first closing
  line, if and only if its name and keys are free of `>` and no value has a closing
  line before its own (`ToolCallCodec.CallRead`, `CallsRead`). Any other call is not
  read, or what is read instead prints the same text (`NotPlainMisread`); a value that
  spells out a parameter boundary prints like the two parameters it imitates
  (`TwoReadings`).
* Smoothed KL divergence between two windows, each empty or a distribution, is not
  negative if and only if the first holds something or neither does
  (`Divergence.KlSign`, `Windows.TransitionSign`).
* A log is exported if and only if every request with a maintenance event has accounting
  and generation lines and a selection or replay, no event is left over, and both totals
  are those announced (`ExportSuccess.ExportExactly`).
* Unless the new header outgrows its length field, extraction succeeds if and only if
  every shard has its tensors and no request is for an empty range
  (`TensorProgram.Extract`). A
  tensor without bytes can therefore fail or not depending on the order of the
  selection (`TensorProgram.EmptyTensorExample`).

The logarithm is a function parameter with the hypotheses
`log(x) >= c * (1 - 1/x)` for some `c > 0`, monotonicity and `log(2) = 1`, for
the sign of KL also that it is negative below one, for the zeros that the bound is
met only at one, where the logarithm is zero, for a similarity of zero that it is below
one up to two, and for the entropy form that it turns quotients into differences. The
tokenizer count of the budget search is a function parameter, the JSON text of a
header is the result of a function parameter, and reads from a file may return fewer
bytes than asked for.

## Model

| member | source | states |
|---|---|---|
| ChatTemplate.RenderMessages | scripts/swe_request_logits_parity.py:130-238 | the loop with its flags builds exactly the pieces of the history, cut off at the last query, plus the generation suffix |
| ChatTemplate.RenderMessage | scripts/swe_request_logits_parity.py:183-231 | one message's text is that of its turn, given its neighbours and whether the think block shows |
| ChatTemplate.RenderSystem | scripts/swe_request_logits_parity.py:151-177 | the opening turn holds tool instructions, merged system text, both or neither |
| ChatTemplate.MergeSystem | scripts/swe_request_logits_parity.py:137-149 | the merged text and the number of messages skipped later are those of the leading system messages, at most two |
| ChatTemplate.RenderCalls | scripts/swe_request_logits_parity.py:203-216 | the calls of an assistant turn with the separators that depend on whether text came before |
| ChatTemplate.RenderToolCall | scripts/swe_request_logits_parity.py:39-65 | the accumulated text of one call is its specified text |
| ChatTemplate.SplitReasoning | scripts/swe_request_logits_parity.py:68-89 | the in-place cutting gives the specified split |
| ChatTemplate.LastQueryIndex | scripts/swe_request_logits_parity.py:97-111 | the backward scan finds the last genuine user query |
| ChatTemplate.LastQuery | scripts/swe_request_logits_parity.py:97-111 | the result is the last index that is a query, or the last index if there is none |
| ChatTemplate.BodyIsShown | scripts/swe_request_logits_parity.py:151-233 | the text of a history is what its marked pieces show |
| ChatTemplate.RenderParts | scripts/swe_request_logits_parity.py:25-36 | the loop over a content list gives the joined texts of its parts |
| ChatContent.PartsMerge | scripts/swe_request_logits_parity.py:25-36 | in any conversation, two neighbouring text parts print like one part with both texts, in that order |
| ChatContent.PartsSkip | scripts/swe_request_logits_parity.py:25-36 | any other item of a content list adds nothing, wherever it stands |
| ChatContent.PartsPlain | scripts/swe_request_logits_parity.py:25-36 | one part prints like its text, an empty list like null or no text, any other value like its JSON dump |
| ChatContent.PartsSplit | scripts/swe_request_logits_parity.py:25-36 | a content list split anywhere prints like the texts of its halves in order |
| ChatContent.TwoParts | scripts/swe_request_logits_parity.py:25-36 | two text parts print like their texts in order |
| ChatContent.QueryExactly | scripts/swe_request_logits_parity.py:92-111 | the queries are the user messages whose trimmed text does not both begin and end like a tool response |
| ChatContent.UserAppended | scripts/swe_request_logits_parity.py:92-111 | an appended user message leaves printed think blocks alone if and only if it is a wrapped tool response |
| ChatReading.BodyIsTurns | scripts/swe_request_logits_parity.py:130-233 | a rendered conversation is its turns, written out plainly from the messages, each closed by the end-of-turn marker |
| ChatReading.TurnsReadBack | scripts/swe_request_logits_parity.py:130-233 | a reader that cuts at the end-of-turn markers finds exactly the turns, if and only if no turn holds the marker |
| ChatReading.SamePromptSameTurns | scripts/swe_request_logits_parity.py:130-233 | conversations without the marker in their turns print alike if and only if their turns are the same |
| ChatPrefix.LastQueryAppend | scripts/swe_request_logits_parity.py:97-111 | the last query never decreases under append, stays when nothing appended is a query, and moves into the appended part otherwise |
| ChatPrefix.SystemSettled | scripts/swe_request_logits_parity.py:137-149 | once there is a query, appending never changes the system turn |
| ChatPrefix.PrefixByCutoff | scripts/swe_request_logits_parity.py:179-231 | with cutoffs that agree on the shared turns, the shorter text is a prefix, or the two differ at a shared position if a tool run straddles the join |
| ChatPrefix.StraddleDiverges | scripts/swe_request_logits_parity.py:218-231 | a straddling tool run makes the texts differ at a position both have |
| ChatPrefix.DroppedThinkDiverges | scripts/swe_request_logits_parity.py:200-201 | an appended query drops a printed think block, and the texts differ where the first one stood if it can be told from its answer |
| ThinkBlocks.AnswerDiverges | scripts/swe_request_logits_parity.py:198-216 | a think block and an answer that does not begin with its tag differ at a shared position |
| ThinkBlocks.BlockDiverges | scripts/swe_request_logits_parity.py:198-216 | a think block and its answer differ from that answer alone, whatever follows, unless the answer prints the tag and a line end in front and the reasoning holds an end-of-turn or tool-call marker |
| ChatAccident.AgreesByAccident | scripts/swe_request_logits_parity.py:198-216 | conversations outside that condition in which a dropped think block leaves the text unchanged |
| ChatPrefix.AppendExact | scripts/swe_request_logits_parity.py:179-231 | for any history, the rendered text stays a prefix under append if and only if the opening turn stays, no tool run straddles the join and no printed think block is dropped; otherwise the texts differ at a shared position |
| ChatRuns.ReplyPrefix | scripts/swe_request_logits_parity.py:189-238 | prompt plus completion is exactly the text of the history with the reply, if and only if there is a query and the reply's parts are trimmed |
| ChatRuns.PlainReplyPrefix | scripts/swe_request_logits_parity.py:189-238 | the same with thinking off and the empty-reasoning form |
| ChatRuns.UntrimmedDiverges | scripts/swe_request_logits_parity.py:189-217 | a completion that is not trimmed differs, at a shared position, from what the history prints for it |
| ChatRuns.RunPrefix | README.md:409-411 | over any agent run, with thinking on or off, a prompt with its completion is a prefix of a later prompt if and only if there is a query, the reply is trimmed and no query came in between; otherwise the texts differ at a shared position |
| ChatRuns.ReplyKept | scripts/swe_request_logits_parity.py:189-217 | without a query in between, the prefix relation is decided by whether the reply is trimmed |
| ChatRuns.ReplyDropped | scripts/swe_request_logits_parity.py:200-201 | without a query before the reply, or with one after it, the texts differ where the first think block is dropped |
| ChatRuns.AppendedExtends | README.md:409-411 | a later request's history is an earlier one's, the reply and a rest that has a query exactly when one was asked in between |
| ChatShape.TurnsBalanced | scripts/swe_request_logits_parity.py:151-233 | start and end markers alternate and balance, and the turns are the system turn, the users, the assistants and the maximal tool runs |
| ChatShape.ErasedAppend | scripts/swe_request_logits_parity.py:137-233 | with think blocks erased, any history stays a prefix of an extension exactly when the opening turn stays and no tool run straddles the join; otherwise the texts differ at a shared position |
| ChatShape.SettledExactly | scripts/swe_request_logits_parity.py:137-177 | the opening turn stays whatever is appended if and only if the history is settled or has printed nothing |
| ChatShape.QuerySettles | scripts/swe_request_logits_parity.py:137-149 | a history with a query is settled |
| ChatShape.UnsettledSystem | scripts/swe_request_logits_parity.py:137-149 | a second system message is merged into the turn of a lone first one, and a first one into that of the tools, so the texts differ at a shared position |
| ThinkParser.Untagged | scripts/swe_request_logits_parity.py:68-73 | without an opening tag everything is the answer |
| ThinkParser.NeverClosed | scripts/swe_request_logits_parity.py:74-80 | with no closing tag behind the first opening tag, all that follows it is reasoning, less one newline |
| ThinkParser.Closed | scripts/swe_request_logits_parity.py:81-89 | a block is cut at its first closing tag; the reasoning loses at most one newline at each side, the answer all line ends in front |
| ChatReasoning.SplitInverse | scripts/swe_request_logits_parity.py:68-89 | splitting the printed think form returns its two parts, if and only if the reasoning has no closing tag and the answer does not begin with a newline or carriage return |
| InlineSeam.InlineOrSeparate | scripts/swe_request_logits_parity.py:189-217 | in any conversation, reasoning inline and reasoning separate render to the same prompt if and only if the reasoning has no closing tag and the answer keeps its front, or the think block is printed, the reasoning has the printed form around its first closing tag and the answer follows |
| InlineSeam.SeamExample | scripts/swe_request_logits_parity.py:68-89 | two trimmed parts joined as the template prints a closing tag are such reasoning |
| InlineSeam.TaggedSpoken | scripts/swe_request_logits_parity.py:68-89 | with a closing tag in inline reasoning, what is before the first one is taken as the reasoning, and the rest, the printed tag included, as the answer |
| InlineReasoning.SameSpoken | scripts/swe_request_logits_parity.py:189-199 | a reply sent inline is split into the reasoning and answer of the same reply sent separately if and only if the reasoning has no closing tag and the answer behind its line ends begins with neither space nor tab |
| InlineReasoning.SpacedAnswer | scripts/swe_request_logits_parity.py:68-89 | an answer with a space in front keeps it when the reasoning is inline and loses it when separate |
| ToolCallCodec.CallRead | scripts/swe_request_logits_parity.py:39-65 | a printed call is read back, whatever follows it, if and only if its name and keys have no `>` and no value has a closing line before its own |
| ToolCallCodec.CallsRead | scripts/swe_request_logits_parity.py:203-216 | the calls of a turn are read back, in order, if and only if all that print anything are of that kind |
| ToolCallCodec.ReadsExactly | scripts/swe_request_logits_parity.py:39-65 | the reader and the printer are inverse: a call is read off a text if and only if the text begins with that call as printed and the call is of that kind |
| ToolCallCodec.PlainPrintsOnce | scripts/swe_request_logits_parity.py:39-65 | two calls of that kind that print alike have the same name and the same ordered arguments |
| ToolCallCodec.NotPlainMisread | scripts/swe_request_logits_parity.py:39-65 | any other call is not read, or what is read instead prints the same text |
| ToolCallCodec.TwoReadings | scripts/swe_request_logits_parity.py:39-65 | a value that spells out the end of its parameter and the beginning of another prints like two parameters, in any call |
| ToolCallCodec.TagFreeIsPlain | scripts/swe_request_logits_parity.py:39-65 | a value without the closing tag has no closing line before its own |
| TensorFiles.RoundTripLE | scripts/download_qwen35_aux.py:75 | little-endian bytes decode to the number they encode, at any place in a file |
| TensorFiles.Fetch | scripts/download_qwen35_aux.py:33-48 | an inclusive byte range, as in section 14.1.2 of RFC 9110, yields exactly last - first + 1 bytes or is refused |
| TensorFiles.Pad | scripts/download_qwen35_aux.py:113 | padding keeps the header text, adds fewer than eight spaces and reaches a multiple of eight |
| TensorFiles.AssembleReads | scripts/download_qwen35_aux.py:112-120 | the format's reading rule on the assembled file gives the header back and each payload range |
| RangeGroups.CoalesceRanges | scripts/download_qwen35_aux.py:82-89 | the loop that extends the last group in place gives the specified groups |
| RangeGroups.CoalesceCorrect | scripts/download_qwen35_aux.py:81-93 | flattening the groups gives the sorted names back, each group is a gapless chain from its start to its end, neighbours never touch |
| RangeGroups.GroupsApart | scripts/download_qwen35_aux.py:82-92 | for disjoint non-empty ranges every group begins at a wanted byte behind an unwanted one |
| RangeGroups.FewestRequests | scripts/download_qwen35_aux.py:82-92 | no exact cover by contiguous requests uses fewer of them than there are groups |
| TensorExtract.GroupByShard | scripts/download_qwen35_aux.py:61-63 | the grouping dict lists each shard's names in selection order |
| TensorExtract.CopyTensor | scripts/download_qwen35_aux.py:100-107 | whatever the short reads, the loop copies exactly the next `size` bytes or reports truncation |
| TensorExtract.CopyAll | scripts/download_qwen35_aux.py:119-120 | the final copy appends the whole payload whatever the short reads |
| TensorExtract.ExtractTensor | scripts/download_qwen35_aux.py:94-110 | one tensor is placed at the cursor with its own bytes, header entry and record |
| TensorExtract.CopyGroup | scripts/download_qwen35_aux.py:93-110 | the tensors of a group are read from one response, each at its own offset |
| TensorExtract.FetchHeader | scripts/download_qwen35_aux.py:73-80 | the two header requests succeed if and only if the announced header has a valid size and lies in the file |
| TensorExtract.ReadableExactly | scripts/download_qwen35_aux.py:75-80 | a header is read if and only if its announced length is from 1 to 2^28 - 1 bytes and that many follow |
| TensorExtract.NonEmptyFilled | scripts/download_qwen35_aux.py:81-92 | if no wanted range is empty, no coalesced request is |
| TensorExtract.FewestForShard | scripts/download_qwen35_aux.py:81-92 | for disjoint non-empty ranges, the requests made for a shard are as few as any that ask for exactly its wanted bytes |
| TensorExtract.ExtractShard | scripts/download_qwen35_aux.py:71-110 | all wanted tensors of one shard are placed, and it succeeds if and only if the shard has them and no coalesced request is for an empty range |
| TensorProgram.Extract | scripts/download_qwen35_aux.py:59-121 | the written file is the padded header and the payload of the whole plan; that point is reached if and only if every shard serves its tensors; every selected tensor reads back from the file |
| TensorProgram.PlacedAt | scripts/download_qwen35_aux.py:94-110 | each tensor occupies the bytes between two consecutive cursors, and they are its source's bytes |
| TensorProgram.RecordedAt | scripts/download_qwen35_aux.py:109-110 | each record names the tensor, its shard, its source range and size |
| TensorProgram.OffsetsPartition | scripts/download_qwen35_aux.py:96-108 | every payload byte belongs to exactly one written tensor |
| TensorProgram.PlanIsSelection | scripts/download_qwen35_aux.py:59-81 | every selected tensor is taken from its shard once, and nothing else |
| TensorOrder.PlanOrdered | scripts/download_qwen35_aux.py:70-81 | tensors are written by shard name in alphabetic order, and within a shard by their start |
| TensorOrder.PlanStable | scripts/download_qwen35_aux.py:70-81 | tensors of one shard that start together are written in the order they were selected |
| TensorProgram.EndToEnd | scripts/download_qwen35_aux.py:59-121 | with the header decoded from the written file itself, reading any selected tensor gives the bytes the same rule gives on its source shard |
| TensorProgram.EmptyTensorExample | scripts/download_qwen35_aux.py:81-92 | an empty tensor that shares its start with another is taken into its request in one order of the selection and fails in the other |
| UnicodeTables.CompileTable | scripts/generate_qwen_unicode_tables.py:39-53 | the in-place coalescing loop gives the specified table, and counts the code points |
| UnicodeTables.CompileCorrect | scripts/generate_qwen_unicode_tables.py:39-53 | the table covers exactly the input, is sorted, disjoint and non-adjacent, and its sizes add up to the count |
| UnicodeTables.NoSurrogates | scripts/generate_qwen_unicode_tables.py:18 | no range of the table reaches a surrogate (section 3.9 of the Unicode Standard) |
| UnicodeTables.CanonicalUnique | scripts/generate_qwen_unicode_tables.py:39-53 | two canonical tables with the same members are equal |
| UnicodeTables.Contains | scripts/generate_qwen_unicode_tables.py:29-37 | the emitted search, in its own integer widths, answers exactly membership |
| UnicodeTables.Lookup | scripts/generate_qwen_unicode_tables.py:29-53 | compiling and searching answers exactly whether the code point was an input |
| UnicodeTables.TableFits | scripts/generate_qwen_unicode_tables.py:24-37 | a table of scalar values fits the emitted field widths |
| FiniteDist.NormalizeProperties | scripts/attention_step_kl_curve.py:18-22 | the result is empty exactly when nothing is positive, and otherwise a distribution on the positive entries |
| FiniteDist.NormalizeProportions | scripts/attention_step_kl_curve.py:18-22 | normalising keeps the proportions of the positive entries |
| FiniteDist.MeanDist | scripts/attention_step_kl_curve.py:25-36 | the accumulating loops, in any order of the entries, give the specified mean |
| FiniteDist.MeanIsDistribution | scripts/kvmem_attention_stability.py:90-101 | a mean is empty or sums to one |
| FiniteDist.MeanIsAverage | scripts/kvmem_attention_stability.py:90-101 | the mean of distributions is already normalised: it is the plain average |
| Divergence.KlDivergence | scripts/attention_step_kl_curve.py:39-48 | the loop over the key union, in any order, gives the specified sum, or fails exactly if some quotient or logarithm is undefined |
| Divergence.AlwaysDefined | scripts/attention_step_kl_curve.py:39-48 | with a positive eps the sum is always defined |
| Divergence.DefinedUnsmoothed | scripts/attention_step_kl_curve.py:39-48 | with eps zero it is defined if and only if both distributions hold the same blocks |
| Divergence.KlNonNegative | scripts/attention_step_kl_curve.py:39-48 | smoothed KL is not negative when p sums to one and q, not necessarily normalised, to at most one |
| Divergence.KlFromNothing | scripts/attention_step_kl_curve.py:39-48 | smoothed KL from nothing to any distribution is negative |
| Divergence.KlSign | scripts/attention_step_kl_curve.py:39-48 | for arguments that are empty or distributions, smoothed KL is not negative if and only if the first is not empty or the second is |
| DivergenceZero.KlZero | scripts/attention_step_kl_curve.py:39-48 | smoothed KL between distributions is zero if and only if they are equal |
| DivergenceScale.KlUnscaled | scripts/attention_step_kl_curve.py:39-48 | smoothed KL, times one plus eps for every block, is the sum over the values with eps added and not normalised |
| Divergence.JsSimilarity | scripts/kvmem_attention_stability.py:57-75 | the loops give the specified similarity |
| Divergence.JsBounds | scripts/kvmem_attention_stability.py:57-75 | JS lies between 0 and 1 for distributions, so the clamp never changes the result |
| DivergenceZero.SimilarityOne | scripts/kvmem_attention_stability.py:57-75 | the similarity of distributions is one if and only if they are equal |
| DivergenceScale.SimilarityZero | scripts/kvmem_attention_stability.py:57-75 | for arguments that are empty or distributions, the similarity is zero if and only if they share no block |
| DivergenceScale.SimilarityNotNegative | scripts/kvmem_attention_stability.py:57-75 | the similarity is never negative, whatever the weights |
| DivergenceScale.JsIsEntropyGain | scripts/kvmem_attention_stability.py:57-75 | the divergence is the entropy of the middle less the mean of the two entropies |
| Divergence.SimilaritySymmetric | scripts/kvmem_attention_stability.py:57-75 | the similarity does not depend on the order of its arguments |
| Coverage.TopIsBest | scripts/attention_block_coverage.py:66-101 | no choice of at most k blocks weighs more than the k largest values |
| Coverage.CoverageAtKOptimal | scripts/attention_block_coverage.py:96-101 | no admissible choice of candidate blocks covers more than `coverage_at_k` |
| Coverage.CoverageAtKAttained | scripts/attention_block_coverage.py:96-101 | some admissible choice covers exactly `coverage_at_k` |
| Coverage.CoverageAtFractionOptimal | scripts/attention_block_coverage.py:84-93 | no admissible choice covers more than `coverage_at_fraction` |
| Coverage.CoverageAtFractionAttained | scripts/attention_block_coverage.py:84-93 | some admissible choice covers exactly `coverage_at_fraction` |
| Coverage.CurveConcave | scripts/attention_block_coverage.py:66-101 | the uncapped curve grows by ever smaller steps |
| Coverage.CoverageMonotone | scripts/attention_block_coverage.py:84-101 | coverage never decreases in k or in the fraction |
| Coverage.DescendingUnique | scripts/attention_block_coverage.py:66-81 | sorting largest first has only one result, so tie order cannot matter |
| Coverage.KeptAndCandidates | scripts/attention_block_coverage.py:66-81 | kept blocks and candidates are together all positive blocks from 0 on, or from the bound if that is negative, each once, divided at the bound |
| Coverage.CoversEverything | scripts/attention_block_coverage.py:96-101 | with room for every candidate, all that positive mass is covered, up to one |
| Coverage.FractionCountIs | scripts/attention_block_coverage.py:84-93 | the number of blocks is at least one, and else the least that is the fraction or more |
| Coverage.CappedAtOne | scripts/attention_block_coverage.py:84-101 | coverage is the uncapped curve up to one, and never more than one |
| TraceReader.CutUnique | scripts/attention_step_kl_curve.py:79-100 | cutting at breaks is the only division into groups with no break inside and one between any two |
| TraceReader.ByKeyIsRuns | scripts/attention_step_kl_curve.py:57-68 | in a segment, the dict with sorted keys groups the rows like consecutive equal samples in arrival order |
| TraceReader.Reader.Flush | scripts/attention_step_kl_curve.py:57-77 | the gathered rows become one segment, described run by run, or nothing happens |
| TraceReader.Reader.Accept | scripts/attention_step_kl_curve.py:95-98 | one more row is held and no segment changes |
| TraceReader.Gather | scripts/attention_step_kl_curve.py:61-74 | each sample's mean distribution and least sequence length, in sample order |
| TraceReader.ReadFile | scripts/attention_step_kl_curve.py:79-99 | one file adds the segments between the descents of its sample number |
| TraceReader.ReadTrace | scripts/attention_step_kl_curve.py:51-100 | the segments are those of the files cut at file ends and descents, each averaged run by run |
| TraceReader.TraceWellFormed | scripts/attention_step_kl_curve.py:57-77 | every segment has samples, as many lengths, and a block size that is not zero |
| TraceSegments.SegmentCount | scripts/attention_step_kl_curve.py:79-99 | a file has one segment more than its accepted rows have falls of the sample number, or none without rows |
| TraceSegments.FileDivides | scripts/attention_step_kl_curve.py:89-92 | where the sample number falls, a file divides like two files |
| TraceSegments.FilesApart | scripts/attention_step_kl_curve.py:79-99 | files never share a segment |
| TraceSegments.SkippedLines | scripts/attention_step_kl_curve.py:83-88 | lines that are no rows change nothing |
| TraceSegments.OneSegment | scripts/attention_step_kl_curve.py:57-77 | a file whose sample numbers never fall makes one segment: per sample number, in order, the average of its rows and their least length, and the last block size stated |
| TraceSegments.SegmentAt | scripts/attention_step_kl_curve.py:57-99 | segment k of any file holds in that way exactly the rows between the kth fall and the next |
| Windows.WindowStarts | scripts/attention_step_kl_curve.py:142-151 | the starts or the error of the specified list |
| Windows.StartsShape | scripts/attention_step_kl_curve.py:142-151 | the starts strictly increase from 0 to `n - window` by at most the stride |
| Windows.CoversAll | scripts/attention_step_kl_curve.py:142-151 | for any length and window and a positive stride, every sample is in a window if and only if there is none, the stride is at most the window or two windows are as long as the segment |
| Windows.SegmentCovered | scripts/attention_step_kl_curve.py:192-214 | the windows built for a kept segment hold all its samples under the same condition |
| Windows.ContextInterval | scripts/attention_step_kl_curve.py:103-126 | the context filter keeps exactly one interval of block ids |
| Windows.BuildWindows | scripts/attention_step_kl_curve.py:154-215 | the nested loops give the specified steps and windows, or the first error |
| Windows.BuiltFails | scripts/attention_step_kl_curve.py:142-194 | building fails if and only if a kept segment is longer than a window and the stride is not positive |
| Windows.BuiltClimbs | scripts/attention_step_kl_curve.py:192-214 | every kept step has a window, so step numbers start at 0 and never skip one |
| Windows.RangeNamesStep | scripts/attention_step_kl_curve.py:346-362 | range k of the plot holds exactly the transitions between two windows of step k |
| Windows.TraceStepsNamed | scripts/attention_step_kl_curve.py:278-283 | the same for the windows built from any trace |
| Windows.WindowsAreDistributions | scripts/attention_step_kl_curve.py:205-213 | every window's distribution is empty or sums to one |
| WindowContents.WindowAverages | scripts/attention_step_kl_curve.py:205-213 | every window of any trace averages exactly the filtered samples of its own segment from its start to its end |
| WindowContents.OneSample | scripts/attention_step_kl_curve.py:205-213 | a window that reads one sample with anything left in it is that sample |
| WindowContents.StepsAccount | scripts/attention_step_kl_curve.py:166-215 | the steps are exactly the kept segments in order, with their sample counts, prompt lengths and window counts; each window is counted to the step of its segment and begins where window and stride put it |
| WindowContents.StartsExactly | scripts/attention_step_kl_curve.py:142-151 | the starts are the multiples of the stride that leave room for a window, and the last place that does |
| WindowContents.FilterHolds | scripts/attention_step_kl_curve.py:103-139 | a filtered sample holds exactly the positive blocks that stay, in their proportions, and sums to one |
| Windows.TransitionSign | scripts/attention_step_kl_curve.py:346-362 | on any trace, the divergence of a transition is not negative if and only if its first window holds something or neither does |
| StepLabels.StepRanges | scripts/attention_step_kl_curve.py:278-284 | the loop gives the specified ranges |
| StepLabels.RangesPartition | scripts/attention_step_kl_curve.py:278-284 | the ranges partition exactly the transitions that are not boundaries |
| StepLabels.StepLabelList | scripts/attention_step_kl_curve.py:285-293 | the labels of the ranges with at least three transitions |
| StepLabels.LabelsGrow | scripts/attention_step_kl_curve.py:285-301 | right ends strictly increase from label to label |
| LabelPlaces.EvenlySpread | scripts/attention_step_kl_curve.py:235-236 | the transitions are spread evenly from one end of the plot to the other |
| LabelPlaces.Midway | scripts/attention_step_kl_curve.py:289-291 | a label stands midway between the first and the last transition of its step |
| LabelPlaces.WidthOfText | scripts/attention_step_kl_curve.py:292-298 | a label is as wide as its text at 7.2 units a character |
| LabelPlaces.LabelsExactly | scripts/attention_step_kl_curve.py:285-293 | every step with at least three transitions has a label, and no other |
| StepLabels.ChooseLabels | scripts/attention_step_kl_curve.py:295-304 | the loop with the last right end draws the greedy choice |
| StepLabels.GreedyCompatible | scripts/attention_step_kl_curve.py:295-304 | any two drawn labels are at least 8 apart |
| StepLabels.GreedyAhead | scripts/attention_step_kl_curve.py:295-304 | no compatible choice has more labels, and one with as many ends no further left |
| StepLabels.LabelSelectionOptimal | scripts/attention_step_kl_curve.py:278-304 | on every plot the drawn labels are a largest compatible set |
| LabelPlaces.DrawnEightApart | scripts/attention_step_kl_curve.py:278-304 | on every plot the drawn labels leave eight units between any two, and no choice of labels that does is larger |
| MaintenanceLog.SplitUnique | scripts/report_qwen35_maintenance_events.py:41-76 | the split at TTFT lines is the only division into finished requests and a rest without a TTFT line |
| MaintenanceLog.ExportArm | scripts/report_qwen35_maintenance_events.py:25-81 | the line-by-line state machine equals splitting, keeping the requests with an event, and checking the totals, errors included |
| MaintenanceLog.EventsAttributedOnce | scripts/report_qwen35_maintenance_events.py:41-80 | the exported event lines are all event lines of the log, once and in order, and the counted selections are those in the log |
| MaintenanceLog.RowSpeaksOfItsRequest | scripts/report_qwen35_maintenance_events.py:31-76 | a row's events are exactly those between the previous TTFT line and its own, its counts and lists are taken from those lines, and its accounting, generation and mid-decode count are the last ones given there |
| ExportSuccess.ExportExactly | scripts/report_qwen35_maintenance_events.py:31-80 | an export succeeds if and only if every stretch with an event has accounting and generation in force and a selection or replay, no event follows the last TTFT line, and both totals are those of the arm |
| ExportSuccess.ListsDivide | scripts/report_qwen35_maintenance_events.py:41-45 | the queries and replays listed of some lines are those of their parts in order |
| ExportSuccess.ListsOne | scripts/report_qwen35_maintenance_events.py:41-45 | which lines are listed as queries and as replays |
| BudgetFit.FitContent | scripts/kvmem_prefix_cache_above_budget_canary.py:107-156 | the doubling and bisection loops end and give the specified result, errors included |
| BudgetFit.FitsTightly | scripts/kvmem_prefix_cache_above_budget_canary.py:107-156 | for any counter, the result fits and one repeat more does not |
| BudgetFit.FitsMaximally | scripts/kvmem_prefix_cache_above_budget_canary.py:107-156 | for a monotone counter exactly the numbers up to the result fit |
| BudgetFit.CannotBracketExactly | scripts/kvmem_prefix_cache_above_budget_canary.py:130-138 | for a monotone counter, bracketing fails if and only if the last length tried still fits |
| BudgetFit.AlwaysBrackets | scripts/kvmem_prefix_cache_above_budget_canary.py:130-138 | bracketing never fails for any counter for which each repeat costs a token, if and only if the target is below the last length tried |
| BudgetFit.MarginSuffices | scripts/kvmem_prefix_cache_above_budget_canary.py:118-138 | any margin from zero up meets that condition |
| BudgetFit.NegativeMarginExample | scripts/kvmem_prefix_cache_above_budget_canary.py:118-138 | with a margin below zero it can fail |
| BudgetFit.AlwaysFits | scripts/kvmem_prefix_cache_above_budget_canary.py:107-156 | with a positive margin and non-empty prompts the search succeeds if and only if the base prompt is within the target |
| BudgetFit.FitErrors | scripts/kvmem_prefix_cache_above_budget_canary.py:118-155 | for a monotone counter, exactly when each error is reported |
| WorkMap.OneBlockEach | scripts/export_gdn_sm120_aot.py:30-32 | every sequence and output head has exactly one block |
| WorkMap.WorkAt | scripts/export_gdn_sm120_aot.py:30-41 | the block of a sequence and head works on that sequence's tokens, from tile 0 on |
| WorkMap.TokensPartitioned | scripts/export_gdn_sm120_aot.py:33-41 | for each head every token is worked on by exactly one block and nothing else is, if and only if the offsets never fall |
| WorkMap.Interleaved | scripts/export_gdn_sm120_aot.py:37-38 | the first output heads read one query head each, in order, and then the order begins again; so with the value heads |
| WorkMap.EvenShares | scripts/export_gdn_sm120_aot.py:37-38 | every query head serves heads / query heads output heads, if and only if that division is exact; so with the value heads |
| Ladder.OneParses | scripts/kvmem_session_profile.py:348-461 | a printed count parses back to itself |
| Ladder.LargestUnit | scripts/kvmem_session_profile.py:348-355 | a count is printed in the largest of the units M, K and one that divides it |
| LadderUnits.PointParses | scripts/kvmem_session_profile.py:455-461 | a number with a point, a sign, a unit in either case and white space around it is read as what it says, cut towards zero |
| Ladder.LadderRoundTrip | scripts/kvmem_session_profile.py:348-465 | parsing a printed list gives it back exactly when it is not empty and strictly increasing, and rejects it otherwise |
| Ladder.ReprintStable | scripts/kvmem_session_profile.py:455-478 | a parsed ladder, printed and parsed again, is the same ladder |
| Ladder.FmtInjective | scripts/kvmem_session_profile.py:348-355 | different lists print differently |

## Left out

- ChatPrefix.AppendExact: says nothing when the first think block dropped has an answer that prints the tag and a line end in front and reasoning that contains `<|im_end|>` or `<tool_call>`; by AgreesByAccident the texts can then agree.
- ChatRuns.RunPrefix: says nothing about dropped think blocks in that same case, the reply's own included.
- ToolCallCodec.CallRead: arguments that are not strings are read back as their printed JSON text, not as values.
- TensorProgram.Extract: which of the errors is reported first is not stated, except that of an overlong header.
- Windows.BuildWindows: an unknown mode name, which the command line refuses, is not representable.
- The C++/CUDA engine, tier movement, prefix-cache eviction and everything the scripts only exercise over HTTP.
- Subprocesses, HTTP, files, hashing and the provenance manifest: shard bytes, log lines and token counts are inputs.
- JSON, regular expressions and numeric field conversion: messages, trace rows and log lines come already parsed and classified.
- Floating-point rounding: distributions, positions and ladder amounts are exact, so a division by a rounded zero cannot occur.
- Exponents, underscores, infinities and non-ASCII digits in `parse_tok`, and white space beyond code 127.
- Fixed-width overflow of block indices in the grid mapping.
- `quantile`, report tables, SVG and Markdown text, argument parsing: formatting or single expressions.
- `common_prefix_len`, `jaccard`, `topk`, `parse_server_log`, seed formulas: each is read off its body.
- The fixed wording of the tool instructions: opaque text, since no result depends on it.
