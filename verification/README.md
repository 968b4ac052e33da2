# Telegram cluster summarization: context packer, reduction drivers and cluster labels

This project is a Dafny model of the sequential core of a Streamlit app that
clusters Telegram messages and describes each cluster with a language model.
It has two parts.

- **The context packer `fill_context`** (`app/utils.py`). It sums the token
  counts of the texts and makes `ceil(total / context_limit)` batches. It sorts
  the texts by token count, largest first, with a stable sort. It deals them
  round-robin into the batches, reshuffling the batch order at the start of
  every pass. It records `(token sum, item count)` per batch under
  `context_<i>`. Last, it shuffles each batch and renders it as
  `<sep>text</sep>\n` pieces.
- **The two-stage drivers.** `describe_cluster` and `describe_channel`
  summarize every first-stage batch. Then, while more than one response
  remains, they re-pack the responses with the `summary` tag and merge each
  batch. The one-level `extract_locations_from_clusters` flattens the
  per-batch location lists and makes one final call on the flat list.
- **The cluster labels of the explore page** (`app/pages/1_Explore_Clusters.py`).
  A keyword row becomes the label `", ".join(keywords) + " (ID: <id>)"`.
  The selected label is parsed back with
  `int(s.split("(ID: ")[1].split(")")[0])`, falling back to `int(s)`.

The tokenizer, the language model and numpy's random source become parameters:
- `tok: string -> nat` stands for the tokenizer.
- `Oracle = string -> string` stands for one model call.
- `Rng` holds draw functions that drive numpy's Fisher-Yates shuffle.

Every property is proved for every tokenizer, every function from prompt to
answer and every sequence of random draws. A model call is a function of
its prompt: the same prompt always gets the same answer, and no call
fails. "## Left out" lists what this drops.

Files:
- `wrappers.dfy`: `Option` and `Result`.
- `shuffle.dfy` (module `Shuffling`): numpy's in-place shuffle and its permutation facts.
- `strings.dfy` (module `Strings`): `str`/`int` of integers, `find`, `split`, `join`.
- `render.dfy` (module `Batches`): the `<sep>…</sep>\n` rendering and a reader that inverts it.
- `packer.dfy` (module `Packer`): `fill_context`.
- `reduce.dfy` (module `Reduction`): the drivers.
- `labels.dfy` (module `ClusterLabels`): the label format and parse.

The source's `while len(responses) > 1` loop has no bound. The model runs it
on explicit fuel and reports `OutOfFuel` when the fuel runs out.
`fill_context` on non-empty texts with zero tokens in total never returns,
because its index list is empty. The model reports that case as
`LoopsForever` and proves that a pass then changes nothing.

Some batches can be empty. The code makes `ceil(total / limit)` batches
whatever the number of texts, so one oversized text, or any input with fewer
texts than batches, leaves batches that render as `""`.
`Packer.FewerTextsThanBatches` and `Packer.OversizedText` prove both cases.

## Model

| member | source | states |
|---|---|---|
| Packer.CeilDivSpec | app/utils.py:42 | The batch count `CeilDiv(a, d)` is `np.ceil(a / d)`: `CeilDiv * d >= a`, and one batch fewer would not cover `a`. |
| Packer.TokenSumIgnoresOrder | app/utils.py:39-41 | The token total does not depend on the order of the texts. |
| Packer.SortDescending | app/utils.py:45 | The sorted texts are a permutation of the input, in non-increasing token order. |
| Packer.SortIsStable | app/utils.py:45 | Texts with equal token counts keep their input order, as Python's stable `sorted(..., reverse=True)` does. |
| Shuffling.RangeIsPermutation | app/utils.py:48 | The index list `[0, …, n-1]` is a permutation of the batch indices. |
| Shuffling.ShuffleKeepsPermutation | app/utils.py:50 | Reshuffling the index list, for any random draws, leaves a permutation of the batch indices. |
| Shuffling.ShufflePermutes | app/utils.py:68-69 | Shuffling a batch keeps exactly the same texts. |
| Packer.PassOrder | app/utils.py:50 | The order of each pass is a permutation of the batch indices. |
| Packer.AssignSpec | app/utils.py:51-55 | One pass hands the j-th remaining text to the j-th index of the order. It stops when the texts run out, and leaves the other batches alone. |
| Packer.AdvanceSizes | app/utils.py:49-57 | A pass gives each batch at most one text, and exactly one while at least as many texts as batches remain. |
| Packer.PassesConserve | app/utils.py:49-57 | Dealing neither drops nor duplicates a text: batches plus remaining texts always hold the input multiset. |
| Packer.PassesOrdered | app/utils.py:45-57 | Dealing a sorted list keeps every batch in non-increasing token order, and ahead of every text still to be dealt. |
| Packer.DealPartition | app/utils.py:45-57 | The dealt batches together hold exactly the input multiset. |
| Packer.DealBalanced | app/utils.py:47-57 | Every batch holds `m / n` texts, or `m / n + 1` when n does not divide m. |
| Packer.DealOrdered | app/utils.py:45-57 | Before the in-batch shuffle, every batch is in non-increasing token order. |
| Packer.ZeroTokensNeverFinish | app/utils.py:42-57 | Non-empty texts with a zero-token total give a batch count of 0, so `FillContext` reports `LoopsForever`. The loop model agrees: with that computed count, no number of passes deals a single text, and all texts stay pending. |
| Packer.StatKeyInjective | app/utils.py:59-66 | Different batch indices give different `context_i` keys, so no statistic overwrites another. |
| Packer.ShuffleBucketsKeeps | app/utils.py:68-69 | The in-batch shuffles keep every batch's texts and size. |
| Batches.RenderEmpty | app/utils.py:74-77 | A batch renders as `""` exactly when it is empty. |
| Batches.ReadRenderRoundTrip | app/utils.py:71-78 | If the texts hold no closing tag, reading a rendered batch gives back its texts in order. |
| Packer.Pack | app/utils.py:39-69 | The number of batches is `ceil(total tokens / limit)`. |
| Packer.PackPartition | app/utils.py:45-69 | The packed batches, after the in-batch shuffles, hold exactly the input multiset. |
| Packer.PackBalanced | app/utils.py:47-69 | Packed batch sizes differ by at most one. |
| Packer.FillContext | app/utils.py:37-80 | The call fails to return exactly when the input is non-empty with zero tokens. Otherwise it returns `ceil(total / limit)` batches and stats keyed `context_0 …`. Empty input gives no batches and empty stats. |
| Packer.FillContextBatches | app/utils.py:59-78 | Rendered batch i and `stats["context_i"]` both describe the same packed batch i. |
| Packer.ReadAllRendered | app/utils.py:71-78 | Reading every rendered batch gives back the multiset of all batch contents. |
| Packer.FillContextRoundTrip | app/utils.py:37-80 | If no text holds the closing tag, reading the rendered output of `fill_context` gives back the input multiset. |
| Packer.FewerTextsThanBatches | app/utils.py:42-57 | With fewer texts than the computed batch count, some rendered batch is `""`. |
| Packer.OversizedText | app/utils.py:42-78 | One text over the limit gives at least two batches: one is that text, and another is empty. |
| Packer.FittingText | app/utils.py:37-80 | One text with at least one token and at most the limit gives exactly one batch, holding that text, with stats `(tokens, 1)`. |
| Reduction.MergeRound | app/utils.py:108-143 | A merge round makes `ceil(total / limit)` oracle calls, one per re-packed `summary` batch. It fails only when the responses are non-empty with zero tokens. |
| Reduction.ReduceLoop | app/utils.py:169-171 | No responses raise at `responses[0]`. A single response is returned without another round. |
| Reduction.Describe | app/utils.py:162-173 | No messages raise at `responses[0]`. Messages with zero tokens in total make the packer loop. |
| Reduction.DescribeCluster | app/utils.py:162-173 | The topic is always `None`, and the call succeeds exactly when the shared reduction at 96000 succeeds. |
| Reduction.DescribeChannel | app/utils.py:216-293 | The same two failure cases, with merging at 76800. |
| Reduction.RoundShrinks | app/utils.py:169-170 | A round strictly reduces the number of responses iff `0 < total <= Times(count - 1, limit)`, that is `(count - 1) * limit` by `Packer.TimesIsProduct`. |
| Reduction.SmallRound | app/utils.py:169-170 | Suppose at least two responses each hold positive tokens and at most half the limit, and merge answers are also that small. Then the next round has fewer, still small, responses. |
| Reduction.LargeRound | app/utils.py:169-170 | If every response and every merge answer is over the limit, a round makes strictly more responses. |
| Reduction.ShrinkingLoopFinishes | app/utils.py:169-171 | A loop whose rounds keep shrinking small responses returns within `count - 1` rounds. |
| Reduction.GrowingLoopNeverFinishes | app/utils.py:169-170 | A loop whose rounds grow large responses never returns, whatever the fuel. |
| Reduction.SmallAnswersConverge | app/utils.py:169-171 | With small merge answers, the merge loop over small responses returns a description. |
| Reduction.LargeAnswersNeverConverge | app/utils.py:169-170 | With merge answers over the limit, the merge loop over two or more large responses runs forever. |
| Reduction.DescribeConverges | app/utils.py:162-171 | Suppose the messages have tokens, every summarize and merge answer has at least one token and at most half the second-stage limit, and the fuel covers `ceil(total / 96000) - 1` rounds. Then the reduction returns a description. |
| Reduction.DescribeNeverConverges | app/utils.py:162-171 | If every summarize and merge answer is over the second-stage limit and the messages fill at least two first-stage batches, the loop never returns, whatever the fuel. |
| Reduction.DescribeClusterConverges | app/utils.py:108-173 | With messages holding at least one token, summarize and merge answers of 1 to 48000 tokens each, and enough fuel, `describe_cluster` returns a description and the topic `None`. |
| Reduction.DescribeChannelConverges | app/utils.py:240-293 | With messages holding at least one token, summarize and merge answers of 1 to 38400 tokens each, and enough fuel, `describe_channel`, merging at 76800, returns a description. |
| Reduction.DescribeChannelNeverConverges | app/utils.py:240-290 | With answers over 76800 tokens and at least two first-stage batches, `describe_channel` never returns. |
| Reduction.CappedIsSmall | app/utils.py:104-270 | Answers of 1 to 1000 tokens, the largest completion cap of the reduction's calls, are small at 76800 and at 96000, and never large. |
| Reduction.CappedDescribeClusterConverges | app/utils.py:104-173 | With non-empty answers within the completion caps, `describe_cluster` returns a description and the topic `None`. |
| Reduction.CappedDescribeChannelConverges | app/utils.py:236-293 | With non-empty answers within the completion caps, `describe_channel` returns a description. |
| Reduction.EmptyAnswersHang | app/utils.py:108-171 | If every summarize answer has 0 tokens and the messages fill at least two first-stage batches, the first merge round re-packs responses with 0 tokens in total, and `fill_context` never returns. |
| Reduction.FitsInOneRound | app/utils.py:169-171 | Two or more responses whose token total is positive and fits the limit are merged by one call, and the loop returns that answer. |
| Reduction.OneBatchRound | app/utils.py:108-143 | A merge round over responses whose token total is positive and fits the limit yields exactly one answer: the merge of the single batch. |
| Reduction.TenTextsThreeBatches | app/utils.py:37-42 | Ten texts of 100 tokens at limit 350 make 3 batches. |
| Reduction.SingleMessage | app/utils.py:162-173 | One message with at least one token and at most 96000 gets one summarize call, on it alone, and no merge round. |
| Reduction.ExtractLocations | app/utils.py:193-213 | The call fails only on non-empty texts with zero tokens. Empty texts give the final call on the empty list. |
| Reduction.FlattenMembership | app/utils.py:199 | A location is in the flattened list iff some batch's list holds it. |
| Reduction.LocatedMembership | app/utils.py:193-199 | A location reaches the final call iff the oracle reported it for some batch. |
| Reduction.LocatedConcat | app/utils.py:193-199 | The per-batch lists are concatenated in batch order. |
| Strings.SplitJoinRoundTrip | app/pages/1_Explore_Clusters.py:28 | The pieces of `s.split(sep)` joined back with `sep` give `s` for every string and non-empty separator: the model of `split` loses nothing. |
| Strings.IntToStringRoundTrip | app/pages/1_Explore_Clusters.py:13 | `int(str(i)) == i` for every integer, negative ids included. |
| ClusterLabels.ParseOrFallBack | app/pages/1_Explore_Clusters.py:28-30 | The only error the fallback can end in is ValueError. A piece that reads as an integer is the result. |
| ClusterLabels.ParseSelection | app/pages/1_Explore_Clusters.py:27-30 | An empty select box ends in TypeError, and nothing else does. A bare id from the fallback list parses to itself. |
| ClusterLabels.ParseSelectionFixed | app/pages/1_Explore_Clusters.py:27-30 | The same error cases for the corrected parse. |
| ClusterLabels.MissingMarker | app/pages/1_Explore_Clusters.py:28-29 | As written, a label raises the uncaught IndexError iff it holds no `"(ID: "`. |
| ClusterLabels.MissingMarkerFixed | app/pages/1_Explore_Clusters.py:28-29 | The corrected parse raises IndexError on exactly the same labels. |
| ClusterLabels.LabelRoundTrip | app/pages/1_Explore_Clusters.py:13-28 | As written, a label parses back to its cluster id, negative ids included, when the joined keywords followed by a space hold no `"(ID: "`. |
| ClusterLabels.StraddlingKeyword | app/pages/1_Explore_Clusters.py:13-30 | The joined keywords `"(ID:"` hold no `"(ID: "`, yet their label with id 5 ends in ValueError. |
| ClusterLabels.CapturedId | app/pages/1_Explore_Clusters.py:13-30 | Keywords `["(ID: 7)"]` with id 5 make the label `"(ID: 7) (ID: 5)"`. The as-written parse returns 7 without an error, and the corrected parse returns 5. |
| ClusterLabels.FixedLabelRoundTrip | app/pages/1_Explore_Clusters.py:13-30 | The corrected parse returns every row's cluster id, whatever its keywords. |
| ClusterLabels.ChoicesParseBack | app/pages/1_Explore_Clusters.py:8-30 | With the corrected parse, every select-box option parses to the cluster id it stands for. |
| ClusterLabels.ChoicesParseBackAsWritten | app/pages/1_Explore_Clusters.py:8-30 | As written, the same holds when no row's keyword text followed by a space holds the marker. |

## Left out

- Database access and the Streamlit UI are not modelled. This covers `db_utils` queries, session state, the select box itself and every page other than the label logic of the explore page. The keyword rows and cluster ids arrive as parameters.
- The OpenAI client, prompts and response parsing are not modelled. The model calls inside `summarize_texts`, `sumarization_of_sumarizations` and `locations_and_dates`, and the final top-10 call, are abstract functions of the rendered batch or list. The re-packing and the per-batch loop of `sumarization_of_sumarizations` are modelled by `Reduction.MergeRound`. The model does not say what a summary contains.
- `extract_message_country`, `generate_keywords`, `topic_modeling` and `batch_jobs_monitor` are not modelled. They are single model calls or network listing and time-zone conversion, with no logic of their own to verify.
- The tiktoken tokenizer is an abstract `string -> nat`.
- numpy's random generator is replaced by arbitrary draw functions feeding the same Fisher-Yates swap sequence. Every property holds for every draw.
- `context_limit` is a float in the source (`128000 * 0.75`, `128000 * 0.6`). Both values are exact integers, so the model uses whole numbers and exact ceiling division. Float rounding of `tokens / context_limit` for totals beyond 2^53 is not modelled.
- Strings.ParseInt models `int()` on ASCII text: surrounding whitespace, an optional sign and decimal digits. Digit-group underscores and non-ASCII digits, which Python also accepts, are not modelled. Only a label whose keywords contain the marker can put such text in the id part read at app/pages/1_Explore_Clusters.py:28. For example, keywords `["(ID: 1_0)"]` with id 5 give the piece `"1_0"`. The as-written model then reports ValueError, where Python reads 10. The corrected parse never reads such text, because the last marker is the page's own, followed by `str(id)`.
- Reduction.ReduceLoop runs on explicit fuel because the source loop has no bound. `OutOfFuel` stands both for "needs more rounds than the fuel" and for "never ends". `GrowingLoopNeverFinishes` proves the second for every fuel, in the case it covers.
- Reduction.Describe does not state a convergence theorem for arbitrary model answers. The source bounds answers only through the API's completion cap, and the abstract oracle does not carry that cap. `DescribeConverges` proves that it returns when every summarize and merge answer is small. `DescribeNeverConverges` proves that it never returns when they are all large. Answers of mixed sizes are not covered.
- Every model call of the reduction sets `max_completion_tokens`: 700 at app/utils.py:104, 1000 at app/utils.py:138, and 800 at app/utils.py:236 and app/utils.py:270. Answers of 1 to 1000 tokens satisfy `SmallAnswers` at both 76800 and 96000 (`Reduction.CappedIsSmall`). So `CappedDescribeClusterConverges` and `CappedDescribeChannelConverges` cover every real run whose answers are non-empty, assuming the tokenizer counts an answer in no more tokens than the API did. The `Large*` lemmas (`LargeRound`, `LargeAnswersNeverConverge`, `DescribeNeverConverges`, `DescribeChannelNeverConverges`) describe an oracle that the source's capped calls cannot be: they show what the uncapped loop would do. Empty answers (0 tokens) fall outside both hypotheses. `EmptyAnswersHang` proves that empty summarize answers over two or more first-stage batches make the first merge round loop forever, as the source does. Runs that mix empty and non-empty answers are not covered.
- Reduction.DescribeCluster states in its own contract only its failure cases and the `None` topic. `DescribeClusterConverges` adds the small-answer case. The text of the description is whatever the abstract model answers make it.
- Reduction.DescribeChannel states in its own contract only its two failure cases. `DescribeChannelConverges` and `DescribeChannelNeverConverges` add the small- and large-answer cases at 76800.
- tiktoken's `encode` raises ValueError on text that contains a special-token string such as `"<|endoftext|>"` (app/utils.py:41, 45, 64). The tokenizer here is a total function, so that exception, which would propagate out of `fill_context` and every driver, is not modelled.
- Model calls that fail are not modelled. A network error, or `.parsed` being `None`, raises out of the drivers (app/utils.py:106, 141-142, 191, 213). The abstract calls always answer, so "one failed call aborts the whole reduction" is not part of the model.
- The model is not stateful: a model call is a function of its prompt, so two equal prompts, for example two empty batches `""` in one round, get equal answers. The properties are proved for every such function, but not for a model that answers the same prompt differently on different calls.
- Logging calls are not modelled.

## Findings

| source | as written | input that shows it | evidently intended | confidence | as-written member | corrected member |
|---|---|---|---|---|---|---|
| app/pages/1_Explore_Clusters.py:28 | The id is read after the FIRST `"(ID: "` in the label, so an id written inside the keywords is taken for the row's id. | Keywords `["(ID: 7)"]`, cluster id 5. The label is `"(ID: 7) (ID: 5)"`. Piece 1 is `"7) "`, its first `)`-piece is `"7"`, and the page selects cluster 7 without any error. | The selected label parses back to its own cluster id, 5. Reading after the LAST marker does this for every label the page builds. | medium, not executed | ClusterLabels.CapturedId | ClusterLabels.FixedLabelRoundTrip |
| app/pages/1_Explore_Clusters.py:28 | The id is read after the FIRST `"(ID: "` in the label. Keywords whose joined text ends in `"(ID:"` combine with the space the label adds, and the marker straddles them. | Keywords `["(ID:"]`, cluster id 5. The label is `"(ID: (ID: 5)"`. Piece 1 is `""`, `int("")` raises ValueError, and the fallback `int(label)` raises ValueError too. | The selected label parses back to its cluster id, as it does for ordinary keywords. Reading after the LAST marker (`rsplit("(ID: ", 1)[1]`) achieves that for every label the page builds. | medium, not executed | ClusterLabels.StraddlingKeyword | ClusterLabels.FixedLabelRoundTrip |
