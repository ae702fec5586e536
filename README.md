# Claims automation agent: a Dafny model of its core

The system decides APPROVE / DENY / UNCERTAIN for insurance claims. It uses a
tool-calling language-model agent behind a prompt-injection filter and an
output validator. An evaluation script replays a fixed dataset of claims
through the service and scores the answers.

This project models the deterministic core around the model calls.

- **Security filter.** `SecurityFilter` models the injection detector: four
  case-insensitive regular expressions plus a fuzzy "anagram of a dangerous
  word" test. It also models the two-pattern output validator and the
  response filter with its 5000-character ceiling. The regular expressions
  run on a small greedy matcher (`Patterns`). The matcher is proved equal to
  the declarative regex semantics for every pattern of the tables.
- **Decision schema.** `Schemas` models the three-member enum and the
  decision record.
- **Tools.** `Tools` models the four agent tools. Each one turns a
  collaborator's failure into a message instead of raising.
  `present_decision` is the only tool whose result ends the run.
- **Agent result post-processing.** `Agent` models `run_agent_query`. It
  denies on injection, sends a single agent call with the fixed prompt layout
  and recursion limit 20, and gets a text answer from the conversation. An
  error becomes UNCERTAIN.
- **Object naming.** `Minio` models how uploads are named. Images are renamed
  to `.webp` with content type `image/webp`. It also gives the fixed paths the
  readers fetch.
- **Evaluation harness.** `Evaluate` models the per-claim payload assembly
  (metadata concatenation and image priority) and the correctness rule with
  its `acceptable_decision` alternative. It models the error records, the
  batch over claims 1..25, the simplified report and the accuracy.
- **Confusion matrix.** `Metrics` models the 3x3 confusion matrix and its
  accuracy line.

Collaborators are parameters of the model:
- the object store;
- the file system of a claim directory;
- the claims service;
- the agent and the vision model;
- the image converter.

Each read, write or call is a function from its request to `Success(value)`
or `Failure(message)`; in Python that failure is an exception, modelled as
its `str(e)` text. A claim directory (`Evaluate.ClaimDir`) is the exception
to the pattern: its listing is a plain sequence of names and its parsed
`answer.json` a single `Result`, while its two readers (`readText`,
`openBinary`) are such functions.

Three places where the code does less than its own names, docstrings or
structure suggest, and the model follows the code:
- **Last agent message is not filtered.** The output validator exists to
  scrub what the agent returns, but a non-empty last agent message is
  returned as it is, and only the fallback text goes through
  `filter_response` (src/agent/agent.py:50-51 against 62-63).
  `Agent.LastMessageBypassesValidator` exhibits a leak signature that reaches
  the caller.
- **Sequential batch.** `evaluate_dataset` is a coroutine, but it awaits the
  cases one after another (scripts/evaluate.py:106-112), and so does
  `Evaluate.RunDataset`.
- **Image tool sentinel.** The docstring of `get_info_from_image` promises a
  message when no image was provided (src/agent/tools.py:77-78). The code
  cannot produce it; see Findings.

The evaluation script imports its plotting entry point from
`src.utils.metrics` (scripts/evaluate.py:9); the matrix code the model follows
is src/evaluation/metrics.py.

Equality of decisions is Python's `==` (`Records.PyEq`): a JSON `true` equals
`1` and `false` equals `0`.

## Model

| member | source | states |
|---|---|---|
| Patterns.SearchCorrect | src/agent/security_filter.py:25-26 | for a pattern whose optional groups and runs cannot be misled by greedy matching, the greedy search finds a match iff the pattern occurs anywhere under the regex semantics |
| SecurityFilter.TablesGreedySafe | src/agent/security_filter.py:11-16 | every dangerous pattern meets the side condition of the greedy-search theorem |
| SecurityFilter.Tokens | src/agent/security_filter.py:30 | the word list of `re.findall(r'\b\w+\b', text.lower())`; no contract of its own, `TokensAreMaximalRuns` proves what it yields |
| SecurityFilter.TokensAreMaximalRuns | src/agent/security_filter.py:30 | `re.findall(r'\b\w+\b')` gives exactly the maximal runs of word characters |
| SecurityFilter.WordIsSingleToken | src/agent/security_filter.py:30 | a non-empty run of word characters is one token, itself |
| SecurityFilter.SortChars | src/agent/security_filter.py:42 | `sorted` gives a sorted permutation of its input |
| SecurityFilter.SortedUnique | src/agent/security_filter.py:42 | two sorted strings with equal multisets are equal, so comparing sorted interiors compares multisets |
| SecurityFilter.IsSimilarWord | src/agent/security_filter.py:37-42 | `_is_similar_word`: equal lengths of at least 3, equal first and last characters, equal sorted interiors; no contract of its own, `SimilarWordIff` characterises it |
| SecurityFilter.SimilarWordIff | src/agent/security_filter.py:37-42 | two words are similar iff they have equal length of at least 3, the same first and last characters, and interiors that are permutations of each other |
| SecurityFilter.SimilarWordSymmetric | src/agent/security_filter.py:37-42 | similarity does not depend on argument order |
| SecurityFilter.SimilarWordReflexive | src/agent/security_filter.py:37-42 | every word of length at least 3 is similar to itself |
| SecurityFilter.PhraseMatch | src/agent/security_filter.py:24-27 | the `any(re.search(...))` test over the dangerous patterns; no contract of its own, `PhraseMatchIff` ties it to the regex semantics |
| SecurityFilter.FuzzyMatch | src/agent/security_filter.py:29-34 | the nested loop over words and vocabulary as an existential; no contract of its own, `FuzzyMatchIff` characterises it |
| SecurityFilter.DetectInjection | src/agent/security_filter.py:23-35 | `detect_injection` as phrase test or fuzzy test; no contract of its own, `DetectInjectionIff` characterises it |
| SecurityFilter.PhraseMatchIff | src/agent/security_filter.py:24-27 | the phrase test fires iff some dangerous pattern occurs in the lowered text |
| SecurityFilter.FuzzyMatchIff | src/agent/security_filter.py:29-34 | the fuzzy test fires iff some maximal word run of the lowered text is similar to a vocabulary word |
| SecurityFilter.DetectInjectionIff | src/agent/security_filter.py:23-35 | injection is detected iff a dangerous phrase occurs or a word is similar to a vocabulary word, both directions |
| SecurityFilter.DetectIgnoresCase | src/agent/security_filter.py:25-30 | two texts equal up to letter case get the same verdict |
| SecurityFilter.VocabularyDetected | src/agent/security_filter.py:19-34 | each fuzzy vocabulary word on its own is detected |
| SecurityFilter.TransposedInterior | src/agent/security_filter.py:42 | "ignroe" and "ignore" have interiors with equal multisets |
| SecurityFilter.TranspositionDetected | src/agent/security_filter.py:37-42 | the misspelling "ignroe" is detected |
| SecurityFilter.NoPhraseWithoutSpace | src/agent/security_filter.py:11-16 | every dangerous phrase needs whitespace, so a text without whitespace never matches one |
| SecurityFilter.LengthChangeNotDetected | src/agent/security_filter.py:38-39 | "ignore5" is one token of the wrong length and is not detected |
| SecurityFilter.ValidateOutput | src/agent/security_filter.py:51-53 | `validate_output` as no suspicious pattern found in the lowered text; no contract of its own, `ValidateOutputIff` ties it to the regex semantics |
| SecurityFilter.ValidateOutputIff | src/agent/security_filter.py:51-53 | output passes iff neither the prompt-leak nor the numbered-instructions signature occurs, ignoring case |
| SecurityFilter.ColonFreeValidates | src/agent/security_filter.py:46-49 | both signatures need a ':', so a text without one always passes |
| SecurityFilter.RefusalHasNoColon | src/agent/security_filter.py:57 | the refusal text has no ':' and fits the length ceiling |
| SecurityFilter.RefusalIsSafe | src/agent/security_filter.py:57 | the refusal text passes the validator and the length ceiling |
| SecurityFilter.FilterResponse | src/agent/security_filter.py:55-58 | a response that validates and has at most 5000 characters comes back unchanged; any other response becomes the refusal |
| SecurityFilter.FilterResponseIsSafe | src/agent/security_filter.py:55-58 | every filtered response passes the validator and the length ceiling |
| SecurityFilter.FilterResponseIdempotent | src/agent/security_filter.py:55-58 | filtering twice is filtering once |
| Schemas.ParseDecision | src/utils/schemas.py:7-10 | a parsed member has the given value; no member has a value that fails to parse |
| Schemas.ParseDecisionValue | src/utils/schemas.py:7-10 | parsing a member's value gives back that member |
| Schemas.LabelsAreValues | src/evaluation/metrics.py:9 | a string is one of the matrix labels iff it is a decision value |
| Records.Truthy | scripts/evaluate.py:137-139 | Python truthiness of a JSON scalar: non-empty string, non-zero integer, `True`; no contract of its own, `PyEqIsEquivalence` shows Python-equal values agree on it |
| Records.Get | scripts/evaluate.py:58-59 | `dict.get(key, default)`: the stored value when the key is present, the default otherwise; no contract of its own |
| Records.RecordDict | scripts/evaluate.py:67-91 | the six-key scored dictionary and the three-key error dictionary; no contract of its own, `RecordDictKeys` states its keys |
| Records.PyEq | scripts/evaluate.py:62-65 | Python's `==` on JSON scalars, with booleans equal to the integers 1 and 0; no contract of its own, the two lemmas below characterise it |
| Records.PyEqIsEquivalence | scripts/evaluate.py:62-65 | that `==` is reflexive, symmetric and transitive, and equal values have equal truthiness |
| Records.PyEqDiffers | scripts/evaluate.py:62-65 | it differs from structural equality exactly between a boolean and the matching integer 0 or 1; `True == 1` holds, `True == 2` does not |
| Records.RecordDictKeys | scripts/evaluate.py:67-91 | only error records carry `error`; `is_correct` reads back as the record's correctness; `claim_num` is the number given |
| Metrics.Counted | src/evaluation/metrics.py:13-17 | the skip rule: a record is counted iff it has no `error` key and both decisions are truthy strings among the three labels; no contract of its own, `CellOf` ties it to the cell chosen |
| Metrics.CellCount | src/evaluation/metrics.py:12-18 | the number of records that increment cell `[e][p]`; no contract of its own, `CellCountSnoc`, `CellCountPermutation` and `CalculateConfusionMatrix` state its meaning |
| Metrics.CellOf | src/evaluation/metrics.py:13-18 | a record has a cell iff it has no error and both decisions are truthy labels; the cell is keyed by exactly those labels |
| Metrics.CellCountSnoc | src/evaluation/metrics.py:12-18 | one more record adds one to its own cell and nothing to the others |
| Metrics.IncrementCell | src/evaluation/metrics.py:18 | the increment changes only the targeted cell, by one, and keeps all nine cells |
| Metrics.CalculateConfusionMatrix | src/evaluation/metrics.py:8-20 | the matrix has all nine cells, and each cell holds the number of records counted into it |
| Metrics.CellSumIsCounted | src/evaluation/metrics.py:12-20 | the nine cells add up to the number of counted records, at most the number of records |
| Metrics.TraceIsDiagonal | src/evaluation/metrics.py:41-42 | the trace is the number of counted records whose prediction equals the expectation |
| Metrics.CellCountAppend | src/evaluation/metrics.py:12-18 | the count of a concatenation is the sum of the counts |
| Metrics.CellCountRemove | src/evaluation/metrics.py:12-18 | removing one record removes exactly its own contribution |
| Metrics.MultisetRemove | src/evaluation/metrics.py:12 | removing the same record from two permutations leaves permutations |
| Metrics.CellCountPermutation | src/evaluation/metrics.py:12-18 | the matrix does not depend on the order of the results |
| Metrics.Accuracy | src/evaluation/metrics.py:43 | the percentage lies in [0, 100]; it is 0 for no records; it is 100 iff all are correct and 0 iff none are |
| Metrics.MatrixAccuracy | src/evaluation/metrics.py:41-43 | the matrix accuracy is `Accuracy` of the counted records whose prediction equals the expectation over all counted records, so it lies in [0, 100] and is 0 when nothing is counted |
| Minio.EffectiveName | src/minio/minio.py:45 | a non-empty explicit name wins; otherwise the upload's own name is used |
| Minio.LastDot | src/minio/minio.py:52 | the position found is a '.', and no '.' follows it; none is found iff the name has no '.' |
| Minio.UploadFileToMinio | src/minio/minio.py:43-74 | a missing name fails as Python does; a failed image conversion fails; otherwise the exact `put_object` request is the claim's object name, the converted or original bytes, and the content type; the stored content type is `image/webp` iff the name is a supported image |
| Minio.IsSupportedImage | src/minio/minio.py:49 | the suffix test `name.lower().endswith(tuple(SUPPORTED_IMAGE_FORMATS))`; no contract of its own, `WebpNameIsSupported` and `WebpExactlyWhenRenamed` state its use |
| Minio.Stem | src/minio/minio.py:52 | `name.rsplit('.', 1)[0]`; no contract of its own, `StemStripsExtension` states what it removes |
| Minio.FinalName | src/minio/minio.py:49-52 | a supported image name is stored under a name ending in ".webp" and at most 5 characters longer; any other name is kept as it is |
| Minio.ObjectName | src/minio/minio.py:54 | `f"{claim_id}/{name}"`; no contract of its own, `ObjectUnderPrefix` places it under the listing prefix |
| Minio.ImagePath | src/minio/minio.py:93 | the image object path; no contract of its own, `ImageUploadIsReadBack` shows uploads land on it |
| Minio.MetadataPath | src/minio/minio.py:107 | the metadata object path; no contract of its own, `MetadataUploadIsReadBack` shows uploads land on it |
| Minio.ListPrefix | src/minio/minio.py:131 | the listing prefix; no contract of its own, `ObjectUnderPrefix` shows every stored object and both reader paths lie under it |
| Minio.GetImageFromMinio | src/minio/minio.py:91-102 | the read of the image path, the error re-raised; no contract of its own, `Tools.FetchImage` states that it has no `None` result |
| Minio.GetClaimMetadata | src/minio/minio.py:105-116 | the read of the metadata path, the error re-raised; no contract of its own, `Tools.GetMetadata` states what the tool makes of it |
| Minio.ListFilesInMinio | src/minio/minio.py:129-135 | the listing under the claim prefix, the error re-raised; no contract of its own |
| Minio.StemStripsExtension | src/minio/minio.py:52 | a name ending in a supported extension (any case) loses exactly that extension |
| Minio.FinalNameRenames | src/minio/minio.py:49-52 | such a name is stored as its stem plus ".webp" |
| Minio.WebpNameIsSupported | src/minio/minio.py:15-49 | a name ending in ".webp" is a supported image |
| Minio.WebpExactlyWhenRenamed | src/minio/minio.py:49-63 | the stored name ends in ".webp" iff the upload was a supported image |
| Minio.ObjectUnderPrefix | src/minio/minio.py:54-131 | stored objects and both reader paths lie under the claim's listing prefix |
| Minio.ImageUploadIsReadBack | src/minio/minio.py:49-93 | "image" with any supported extension is stored exactly where the image reader looks |
| Minio.MetadataUploadIsReadBack | src/minio/minio.py:54-107 | "metadata.md" is stored exactly where the metadata reader looks |
| Tools.GetPolicy | src/agent/tools.py:19-23 | the policy text on success, the prefixed error otherwise |
| Tools.GetMetadata | src/agent/tools.py:38-42 | the metadata object at the claim's metadata path on success, the prefixed error naming the claim otherwise |
| Tools.GetInfoFromImage | src/agent/tools.py:80-87 | the sentinel for no image; the vision answer for an image; the prefixed error for a failure of either step |
| Tools.FetchImage | src/agent/tools.py:81 | the store's reader as the tool calls it never yields `None`; it succeeds iff the read of the image path does, with those bytes, and fails with that read's error |
| Tools.NoImageBranchUnreachable | src/agent/tools.py:81-83 | with the store's reader the `None` branch never runs; the sentinel comes back only if the vision model itself returns it |
| Tools.FetchImageChecked | src/agent/tools.py:81-83 | the corrected reader yields `None` exactly when the image object is absent, and behaves as the store's reader otherwise |
| Tools.MissingImageGivesSentinel | src/agent/tools.py:76-83 | with the corrected reader a claim without an image gets the sentinel; otherwise the tool behaves as before |
| Tools.ErrorMessagesKeepError | src/agent/tools.py:19-87 | each tool's failure message determines the error it folds |
| Tools.PresentDecision | src/agent/tools.py:45-57 | the record carries exactly the decision and explanation given |
| Tools.PresentRawDecision | src/agent/tools.py:46 | the argument is accepted iff it is one of the three labels, and the record then carries that label's member |
| Tools.OnlyPresentDecisionReturnsDirect | src/agent/tools.py:90-95 | four distinct tools; exactly `present_decision` ends the run |
| Evaluate.Glob | scripts/evaluate.py:23 | a name is listed iff it is in the directory and ends in the suffix |
| Evaluate.Section | scripts/evaluate.py:28 | the `"\n\n### {name}\n\n"` header followed by the file's text; no contract of its own, `MetadataAppends` shows each read appends exactly its section |
| Evaluate.MetadataOf | scripts/evaluate.py:23-28 | the metadata concatenation as a fold over the listed files; no contract of its own, the lemmas below and `BuildMetadata` state its meaning |
| Evaluate.MetadataStep | scripts/evaluate.py:25-28 | one more markdown file appends its section or fails with its read error |
| Evaluate.MetadataFailureSticks | scripts/evaluate.py:27 | once a read has failed, the whole concatenation fails with that error |
| Evaluate.BuildMetadata | scripts/evaluate.py:23-28 | the loop yields the concatenation of the sections of the markdown files in listing order, or the first read error |
| Evaluate.AnswerJsonNeverExcluded | scripts/evaluate.py:23-26 | no ".md" name is "answer.json", so the exclusion never removes a file |
| Evaluate.MetadataSucceedsIff | scripts/evaluate.py:25-28 | the concatenation succeeds iff every read succeeds |
| Evaluate.MetadataFirstFailure | scripts/evaluate.py:25-28 | the error reported is that of the first failing file |
| Evaluate.MetadataAppends | scripts/evaluate.py:28 | a successful read appends exactly its own section |
| Evaluate.FirstImage | scripts/evaluate.py:30-36 | the image search as a recursion over the extensions; no contract of its own, `NoImageIffNoMatch` and `ImageIsEarliestMatch` characterise it |
| Evaluate.SelectImage | scripts/evaluate.py:30-36 | the loop picks the first match of the earliest extension in priority order that has one |
| Evaluate.NoImageIffNoMatch | scripts/evaluate.py:30-36 | no image is sent iff no extension matches any file |
| Evaluate.ImageIsEarliestMatch | scripts/evaluate.py:30-36 | the image sent is the first match of the earliest extension with a match, and every earlier extension matched nothing |
| Evaluate.PayloadOf | scripts/evaluate.py:38-47 | a failed description open or a failed open of the selected image fails with that open's error; when every open succeeds a payload is built, carrying the description bytes and the metadata, and an image exactly when one was selected, namely the selected file with the bytes its open gave |
| Evaluate.IsCorrect | scripts/evaluate.py:62-65 | correct iff the prediction equals the expected decision under Python's `==`, or equals the acceptable alternative when there is one |
| Evaluate.IsCorrectExamples | scripts/evaluate.py:62-65 | the alternative rescues exactly the alternative prediction, and nothing rescues a prediction without one; `true` against an expected `1` is correct, the string "1" is not |
| Evaluate.ScoreOf | scripts/evaluate.py:54-74 | an unreadable answer gives its error record; an answer without "decision" gives the KeyError record; otherwise the record carries the reply's decision and explanation, the expected ones, and `is_correct` equal to the correctness rule on them |
| Evaluate.CaseRecordOf | scripts/evaluate.py:18-91 | every outcome has the case number; a failed metadata build, payload or service call gives the error record of that step's error; a scored record comes from a successful metadata build, payload and service call, carries the reply's decision and `answer.json`'s decision, and has `is_correct` equal to the correctness rule against `answer.json` |
| Evaluate.ProcessClaim | scripts/evaluate.py:18-91 | the method returns the record of the claim's directory, with the same order of reads and the same error at each step |
| Evaluate.ScoredIff | scripts/evaluate.py:18-91 | a scored record comes back iff the metadata, the files, the service call and the answer's `decision` key all succeed |
| Evaluate.RunDataset | scripts/evaluate.py:104-112 | the loop collects the records of the existing directories claim 1 .. claim 25 |
| Evaluate.RecordsUpTo | scripts/evaluate.py:104-112 | the batch's records as a recursion over claim numbers; no contract of its own, `RecordsUpToShape` and `RunDataset` state its meaning |
| Evaluate.RecordsUpToShape | scripts/evaluate.py:106-112 | each record belongs to an existing directory in range; the records are in strictly ascending claim order; every existing directory has one |
| Evaluate.CorrectCount | scripts/evaluate.py:115 | the correct count never exceeds the number of records |
| Evaluate.DiagonalAtMostCorrect | scripts/evaluate.py:62-74 | for consistent records, the matrix diagonal never exceeds the correct count |
| Evaluate.TraceAtMostCorrect | scripts/evaluate.py:114-123 | for the batch, the matrix trace is at most the printed correct count |
| Evaluate.SimplifyRecord | scripts/evaluate.py:128-139 | one simplified entry with the script's `get` defaults; no contract of its own, `SimplifyRecordFields` states its fields |
| Evaluate.SimplifyRecordFields | scripts/evaluate.py:128-139 | an error record reports "ERROR", its error and an empty expected decision; a scored record reports its own fields; `gt_reason` appears iff the expected explanation is truthy |
| Evaluate.ClaimLabelInjective | scripts/evaluate.py:130 | distinct claim numbers give distinct "claim N" labels |
| Evaluate.SimplifyResults | scripts/evaluate.py:127-141 | one entry per record, in order, each the simplified record |
| Evaluate.EvaluateDataset | scripts/evaluate.py:94-141 | nothing when the dataset is missing; otherwise the records of the batch, the exact totals and accuracy, the full matrix of counts, and the simplified entries |
| Agent.ClaimPrompt | src/agent/agent.py:38 | the prompt text handed to the agent; no contract of its own, `ClaimPromptLayout` states its layout |
| Agent.ClaimPromptLayout | src/agent/agent.py:38 | the prompt is the id header, then "\n###CLAIM###:\n", then the unchanged claim text, with 29 fixed characters |
| Agent.MentionsDecision | src/agent/agent.py:57-59 | non-empty content whose upper-cased text contains one of the four keywords; no contract of its own, `DecisionMessagesMembers` states its use |
| Agent.DecisionMessages | src/agent/agent.py:54-60 | the contents kept by the keyword filter, in conversation order; no contract of its own, `CollectDecisionMessages` and `DecisionMessagesMembers` characterise it |
| Agent.CollectDecisionMessages | src/agent/agent.py:54-60 | the loop collects the non-empty contents that mention a decision keyword, in order |
| Agent.DecisionMessagesMembers | src/agent/agent.py:56-60 | a text is collected iff it mentions a decision and is some message's content |
| Agent.RunAgentQuery | src/agent/agent.py:29-67 | an injected claim is denied without calling the agent; otherwise exactly one call with the prompt and limit 20; an error gives UNCERTAIN with its text; the answer is the last message or the filtered fallback; DENY comes back iff injection was detected |
| Agent.SelectResult | src/agent/agent.py:47-63 | an empty conversation, and only that, gives UNCERTAIN with reason "Agent processing error: list index out of range", never DENY; a non-empty last message is the answer; otherwise the answer is the fallback text |
| Agent.FallbackText | src/agent/agent.py:54-63 | "No response generated" when no message mentions a decision; otherwise the newline-joined decision messages when they validate and fit the 5000-character ceiling, and the refusal when they do not; the result always validates and fits the ceiling |
| Agent.FallbackIsSafe | src/agent/agent.py:62-63 | the fallback text always passes the validator and the length ceiling |
| Agent.LastMessageBypassesValidator | src/agent/agent.py:50-51 | a non-empty last message is returned unfiltered even when it carries a leak signature |

## Findings

| source | as written | input that shows it | evidently intended | confidence | as-written member | corrected member |
|---|---|---|---|---|---|---|
| src/agent/tools.py:81-83 | `get_image_from_minio` re-raises every read error and never returns `None`, so the "no image" branch is dead | a claim without a `<id>/image.webp` object: the read fails with the store's missing-key error, and the tool returns "Error retrieving/analyzing image ..." | the docstring's "a message if no image was provided": the sentinel for a claim without an image | not executed; medium (the upload endpoint requires an image, so this only arises when the object is missing) | Tools.NoImageBranchUnreachable | Tools.MissingImageGivesSentinel (over Tools.FetchImageChecked) |

## Left out

- HTTP routing, the FastAPI application, `httpx` and the claim-service client are out of scope. The service is a parameter of `Evaluate`.
- The MinIO client, `get_object`/`put_object`, byte streams and connection release are out of scope. Each read and write is a function parameter.
- The PIL conversion to WebP is a `convert` parameter of `Minio.UploadFileToMinio`.
- The language-model agent, the vision model, `query_image` and the explanation judge are parameters or left out. The agent is a function from its call to the returned messages.
- The system prompt text (src/agent/prompt.py), agent_utils, the PostgreSQL persistence and the confusion-matrix plotting and file output are not part of this model.
- `get_client_claim` is not part of this model. `Agent.RunAgentQuery` takes the claim text as an argument.
- Message content is a string. LangChain's list-of-parts content is not modelled.
- The regex and case rules are ASCII only. `\w` and `\d` are ASCII word characters and digits. `lower()`/`upper()` map only A-Z/a-z. `\s` is the full `str.isspace` set. Python's Unicode case equivalences under IGNORECASE (such as the Kelvin sign matching "k") are not modelled.
- JSON arrays, nested objects and floats are not values of the model. `answer.json` content that is not an object is not modelled.
- Percentages are exact reals, so the float rounding of `accuracy` and of the `:.2f` formatting is not modelled.
- `glob` is modelled as a suffix filter over the directory listing, in listing order. Its case rules and hidden-file rules are not modelled.
- Logging, `print`, the closing of file handles and the `await` of asynchronous reads are left out. None of them changes a result.
- Exceptions are modelled by their `str(e)` text. Exception types are not distinguished.
- The existence checks of the dataset directory and of the claim directories are inputs: `Evaluate.EvaluateDataset` takes an optional map from claim number to directory.
