# OSSign dispatch step, modelled in Dafny

The `workflow/dispatch` step of OSSign/actions talks to the OSSign signing
service. Depending on its inputs, it either checks a given job once, or starts
a signing job for the triggering git ref and then either reports that job or
polls it until it finishes or 24 hours pass. It publishes the result as step
outputs. The
repository has two entry points:

- **`run()` in main.ts.** This is the current action. It covers
  input validation and three modes: single check, dispatch only, and full
  dispatch-and-poll. Its poll loop re-reads the job id from each answer and
  reports a status when it differs from the one it remembers. A missing status
  is remembered as `""`, so it is reported again on every pass. It sets the `signed_artifacts`,
  `workflow_id` and `finished` outputs.
- **The top-level script index.ts.** This is the older entry point. It dispatches, then polls
  `status/<user>/<id>`. It always polls the id that the dispatch answered with, and it
  reports the status on every poll. It sets a single `artifacts` output.

The model turns three collaborators into oracles, and each run takes them as
plain parameters:

- **The HTTP client.**
  - `replies[0]` answers the first call.
  - `replies[j]` answers the check or status request in loop pass `j`.
  - Each answer is one of three outcomes:
    - `Ok(snapshot)`;
    - `Envelope(message)` for a parsed `{ message }` body;
    - `Throw(reason)`: `ky` throws on a transport error, on its timeout, and on any non-2xx status. A `null` body also lands here, because `"message" in null` throws.
- **The clock.**
  - `clock[0]` is `startTime`; the guard of pass `j` reads `clock[j]`.
  - The last reading is past the 24-hour deadline, so the sequence is finite.
  - `Spaced` adds that readings are at least one 15 s sleep apart. Only the iteration bound needs it.
- **The CI host** (`@actions/core`). Everything the step does through it becomes
  an event in a list, in order:
  - API requests;
  - sleeps;
  - status notes;
  - `setFailed` messages;
  - `setOutput` calls.

  `Requests`, `Failures` and `LastOutput` read that list.

Pure code is modelled as functions:
- ref resolution;
- the dispatch payload;
- the response classification in `CallApi`;
- the JavaScript string operations.

Both entry points are modelled as methods with loops over the oracles:
- `Main.Run` and `Main.PollLoop`;
- `Index.Script` and `Index.Watch`.

Each method is proved equal to a recursive specification function:
`RunSpec`/`PollSpec` for main.ts and `ScriptSpec`/`WatchSpec` for index.ts. The
modules `RunProperties` and `IndexProperties` then prove what those
specifications do. They compare them with reference definitions computed from the
clock and the answers alone:
- the checks expected;
- the failures expected;
- the answer that stops the loop;
- the outputs left.

`Polling` holds the stopping rule the two loops share.

Modules:
- `Wrappers`: `Option`.
- `JsText`: `replace` (first occurrence), `trim`, `toLowerCase`.
- `Models`: `WorkflowStatusResponse`, `Asset`, dispatch payload, call outcomes.
- `Host`: events, clock predicates, event filters.
- `Dispatch`: ref name, payload, API paths.
- `Main`: main.ts.
- `Polling`: a shared stopping rule.
- `RunProperties`: properties of main.ts.
- `Index`: index.ts.
- `IndexProperties`: properties of index.ts.

## Model

| member | source | states |
|---|---|---|
| JsText.ReplaceFirst | workflow/dispatch/src/main.ts:107 | `replace` with a string pattern: without an occurrence the string is unchanged, otherwise exactly as many characters as the pattern has are removed |
| JsText.ReplaceFirstAtLeftmost | workflow/dispatch/src/main.ts:107 | the removal is at the leftmost occurrence of the pattern, wherever it is, and only there |
| JsText.TrimStart | workflow/dispatch/src/main.ts:63 | `trimStart` keeps a suffix of its input |
| JsText.TrimStartDropsWhitespace | workflow/dispatch/src/main.ts:63 | what `trimStart` drops is ECMAScript whitespace, and what it keeps does not start with any |
| JsText.TrimEnd | workflow/dispatch/src/main.ts:63 | `trimEnd` keeps a prefix of its input |
| JsText.TrimEndDropsWhitespace | workflow/dispatch/src/main.ts:63 | what `trimEnd` drops is whitespace, and what it keeps does not end with any |
| JsText.BlankIffAllWhitespace | workflow/dispatch/src/main.ts:63-71 | `!s \|\| s.trim() === ""` holds exactly when every character is whitespace (the empty string included) |
| JsText.Trim | workflow/dispatch/src/main.ts:63-76 | no contract of its own: `BlankIffAllWhitespace` states when it gives `""` |
| JsText.IsBlank | workflow/dispatch/src/main.ts:63-76 | no contract of its own: `BlankIffAllWhitespace` states that it holds exactly for all-whitespace strings |
| JsText.AsciiLower | workflow/dispatch/src/main.ts:60 | an upper-case ASCII letter maps to its own lower-case letter (code point + 32); every other character is unchanged |
| JsText.LowerCase | workflow/dispatch/src/main.ts:60 | `toLowerCase` keeps the length and maps each character by `AsciiLower` |
| Dispatch.ResolveRefName | workflow/dispatch/src/main.ts:107 | the two successive first-occurrence removals never lengthen the ref; a ref holding neither pattern is returned unchanged |
| Dispatch.BranchRefResolves | workflow/dispatch/src/main.ts:107 | `refs/heads/X` resolves to `X` whenever `X` holds no `refs/tags/`, even when it holds `refs/heads/` again |
| Dispatch.TagRefResolves | workflow/dispatch/src/index.ts:26 | `refs/tags/X` resolves to `X` whenever `X` holds no `refs/heads/` |
| Dispatch.BranchNameHoldingTagPattern | workflow/dispatch/src/main.ts:107 | the removal is not anchored: branch `feature/refs/tags/y` resolves to `feature/y` |
| Dispatch.DispatchAction | workflow/dispatch/src/main.ts:43 | no contract of its own: `DispatchOnlyMode`, `FullModeRequests` and `PreludeRecords` state that every dispatch is sent to `dispatch/<username>` |
| Dispatch.CheckAction | workflow/dispatch/src/main.ts:51 | no contract of its own: `PollRoundRequests` and `SingleCheckOutcome` state that every check is sent to `check/<username>/<id>` |
| Dispatch.StatusAction | workflow/dispatch/src/index.ts:77 | no contract of its own: `PassRecords` and `WatchRequests` state that every status poll is sent to `status/<username>/<id>` |
| Dispatch.StartRequest | workflow/dispatch/src/main.ts:38-41 | `source_branch` is the ref name; `release_name` is `"Ref: "`, the name, `" - "` and the timestamp |
| Dispatch.ParseReleaseName | workflow/dispatch/src/index.ts:35-38 | a release label that parses has the label's layout: 8 fixed characters plus the name and the timestamp |
| Dispatch.ReleaseNameRoundTrip | workflow/dispatch/src/main.ts:40 | the ref name and the timestamp can both be read back from the release label |
| Dispatch.ReleaseNameInjective | workflow/dispatch/src/index.ts:37 | for timestamps of equal length, different ref names or times give different labels |
| Models.WorkflowStatusResponse | workflow/dispatch/src/models/workflow-status-response.ts:1-14 | no contract of its own: a required `id` and six optional fields; `BodyOf` states how an answer becomes one |
| Models.IdText | workflow/dispatch/src/main.ts:135 | no contract of its own: `BodyOf` and `ExpectedCheckAt` state that it is the snapshot's `id` and `"undefined"` for an envelope |
| Models.BodyOf | workflow/dispatch/src/main.ts:30 | the cast body is a snapshot exactly when the answer was one, and then it is the answer's own snapshot; an envelope moves on with `id` rendering as `"undefined"`, no `last_status`, no `release_assets` and not completed |
| Models.Completed | workflow/dispatch/src/main.ts:141 | no contract of its own: `CompletedIffFinishes` ties `completed \|\| false` to the answer reporting a finished job |
| Models.CompletedIffFinishes | workflow/dispatch/src/main.ts:141 | `completed \|\| false` holds for a parsed answer exactly when it reports a finished job |
| Main.CallApiRecords | workflow/dispatch/src/main.ts:7-33 | one request per call and no output; the call throws exactly when the transport throws; otherwise it returns the parsed body, and for an envelope it records `Failed to call API <action>: <message>` and still returns |
| Main.CompletionOutputsSet | workflow/dispatch/src/main.ts:151-166 | on completion `finished` is true and `signed_artifacts` is the assets only when there is at least one asset (otherwise not set); nothing is sent or failed |
| Main.RepeatedStatusNotedOnlyWhenMissing | workflow/dispatch/src/main.ts:136-140 | a repeated status is not noted again, except a missing one: it is remembered as `""`, which never equals `undefined` |
| Main.IdValue | workflow/dispatch/src/main.ts:117 | the `workflow_id` output is the snapshot's `id` when the dispatch answered with a snapshot, and not a string (`undefined`) for an envelope |
| Main.CallApi | workflow/dispatch/src/main.ts:7-33 | no contract of its own: `CallApiRecords` states its request, its failure and its reply |
| Main.DispatchWorkflow | workflow/dispatch/src/main.ts:35-46 | no contract of its own: `DispatchOnlyMode` and `FullModeRequests` state that it sends `StartRequest` of the resolved ref to `dispatch/<username>` |
| Main.CheckWorkflow | workflow/dispatch/src/main.ts:48-54 | no contract of its own: `PollRoundRequests` and `SingleCheckOutcome` state that it sends one bodiless check to `check/<username>/<id>` |
| Main.StatusChange | workflow/dispatch/src/main.ts:136-138 | no contract of its own: a note exactly when the remembered string differs from `last_status` (the body's own `!==`); `RepeatedStatusNotedOnlyWhenMissing` states that a defined status seen again is silent while a missing one is noted on every pass, and `StatusChangeRecords` that a note is no request, failure or output |
| Main.SignedArtifacts | workflow/dispatch/src/main.ts:153-159 | no contract of its own: `CompletionOutputsSet` and `SingleCheckOutcome` state that `signed_artifacts` is the assets' JSON exactly when there is at least one |
| Main.NextLastStatus | workflow/dispatch/src/main.ts:140 | no contract of its own: `RepeatedStatusNotedOnlyWhenMissing` states that what it remembers silences a repeat of a defined status only |
| Main.PendingOutputs | workflow/dispatch/src/main.ts:100-101 | no contract of its own: `PendingOutputsSet` states the outputs it sets |
| Main.DispatchOnlyOutputs | workflow/dispatch/src/main.ts:116-118 | no contract of its own: `DispatchOnlyOutputsSet` states the outputs it sets |
| Main.CompletionOutputs | workflow/dispatch/src/main.ts:151-166 | no contract of its own: `CompletionOutputsSet` states the outputs it leaves |
| Main.DispatchOnlyFlag | workflow/dispatch/src/main.ts:60 | no contract of its own: `DispatchOnlyFlagIff` states which inputs it accepts |
| Main.PollRound | workflow/dispatch/src/main.ts:133-138 | no contract of its own: `PollRoundRequests`, `PollRoundReply` and `PollRoundFailures` state one pass |
| Main.PollSpec | workflow/dispatch/src/main.ts:132-167 | no contract of its own: `PollChecks`, `ExpectedChecksChain`, `PollEnds`, `PollOutputs` and `PollFailures` state the loop against reference definitions |
| Main.SingleCheckSpec | workflow/dispatch/src/main.ts:76-103 | no contract of its own: `SingleCheckOutcome` states its request, failure, result and outputs |
| Main.DispatchSpec | workflow/dispatch/src/main.ts:105-167 | no contract of its own: `DispatchSpecFailure`, `DispatchOnlyMode` and the `FullMode` lemmas state each branch |
| Main.RunSpec | workflow/dispatch/src/main.ts:57-167 | no contract of its own: `UsernameRequiredFirst`, `TokenRequiredNext`, `SingleCheckMode`, `DispatchFailure`, `DispatchOnlyMode` and the `FullMode` lemmas state each mode |
| Main.Run | workflow/dispatch/src/main.ts:57-167 | `run()` step by step produces exactly the events and the completion of `RunSpec` |
| Main.SingleCheck | workflow/dispatch/src/main.ts:76-103 | the single-check branch produces exactly `SingleCheckSpec` |
| Main.DispatchAndPoll | workflow/dispatch/src/main.ts:105-167 | the ref, the dispatch and the mode choice produce exactly `DispatchSpec` |
| Main.PollOnce | workflow/dispatch/src/main.ts:133-138 | one pass of the loop body produces exactly `PollRound` |
| Main.PollLoop | workflow/dispatch/src/main.ts:123-167 | the `while` loop over the clock and the answers, and the code after it, produce exactly `PollSpec` from the dispatched snapshot |
| Polling.ChecksFrom | workflow/dispatch/src/main.ts:132 | the number of loop passes never reaches past the last clock reading |
| Polling.ChecksFromScan | workflow/dispatch/src/main.ts:132-146 | every counted pass passed the deadline guard; every pass but the last neither threw nor finished; if the last one did too, the next guard is past the deadline |
| Polling.FinalAnswerIsLastCheck | workflow/dispatch/src/main.ts:143-145 | the answer that stops the loop is the answer to its last pass; there is none after a timeout |
| Polling.PollBound | workflow/dispatch/src/main.ts:123-133 | with readings one 15 s sleep apart, the loop makes at most 86400000 / 15000 = 5760 checks |
| RunProperties.StatusChangeRecords | workflow/dispatch/src/main.ts:136-138 | a status note is neither a request, nor a failure, nor an output |
| RunProperties.PollRoundRequests | workflow/dispatch/src/main.ts:133-135 | a pass sleeps once, for 15 s, first, and then sends exactly one check, for the id of the snapshot it holds; it sets no output |
| RunProperties.PollRoundReply | workflow/dispatch/src/main.ts:135 | a pass throws exactly when its check throws; otherwise it hands on the parsed answer |
| RunProperties.PollRoundFailures | workflow/dispatch/src/main.ts:135 | a pass records a failure only for an error envelope, naming the check action and the message |
| RunProperties.Verdict | workflow/dispatch/src/main.ts:148-167 | the loop never returns `false` |
| RunProperties.PollEnds | workflow/dispatch/src/main.ts:132-167 | the loop returns true when an answer reports a finished job, rejects with the reason when a check throws, and returns `undefined` at the deadline |
| RunProperties.PollChecks | workflow/dispatch/src/main.ts:132-146 | the requests the loop sends are exactly the expected checks |
| RunProperties.ExpectedChecksCount | workflow/dispatch/src/main.ts:132-146 | one check per counted pass; the first is for the dispatched id |
| RunProperties.ExpectedCheckAt | workflow/dispatch/src/main.ts:135 | check `k + 1` is for the id that answer `k` carried (`"undefined"` after an envelope), and that answer let the loop go on |
| RunProperties.ExpectedChecksChain | workflow/dispatch/src/main.ts:132-146 | all checks at once: one per counted pass, the loop stops after the first finishing answer, and each check uses the id from the answer before it |
| RunProperties.PollOutputs | workflow/dispatch/src/main.ts:148-167 | every output the loop leaves set comes from the stopping answer: the completion outputs, or none after a throw or the deadline |
| RunProperties.PollFailures | workflow/dispatch/src/main.ts:132-149 | the loop records exactly one failure per envelope it reads and the timeout message at the deadline |
| RunProperties.CheckFailureIsNotTimeout | workflow/dispatch/src/main.ts:26-28 | a check's envelope failure never reads as the timeout message |
| RunProperties.TimeoutReportedIffNoStop | workflow/dispatch/src/main.ts:148-149 | "Workflow did not complete within the timeout period." is recorded exactly when no answer stopped the loop before the deadline |
| RunProperties.PendingOutputsSet | workflow/dispatch/src/main.ts:99-102 | a pending single check sets `finished` false and `signed_artifacts` empty, and sends and fails nothing |
| RunProperties.DispatchOnlyOutputsSet | workflow/dispatch/src/main.ts:116-118 | dispatch-only mode sets `signed_artifacts` empty, `workflow_id` to the job's id and `finished` false |
| RunProperties.SingleCheckOutcome | workflow/dispatch/src/main.ts:76-103 | a single check sends one check of the given id and records only an envelope's failure; it returns whether it finished or rejects on a throw, and leaves outputs that depend on completion only |
| RunProperties.UsernameRequiredFirst | workflow/dispatch/src/main.ts:63-66 | a blank username fails with "Username is required", with no request and no output |
| RunProperties.TokenRequiredNext | workflow/dispatch/src/main.ts:68-71 | a username with a blank token fails with "Token is required", with no request and no output |
| RunProperties.SingleCheckMode | workflow/dispatch/src/main.ts:76-103 | with both credentials and a non-blank `single_check`, the run makes exactly one check of that id and no dispatch |
| RunProperties.SingleCheckIgnoresTheRest | workflow/dispatch/src/main.ts:76 | single-check mode wins over `dispatch_only` and reads neither the ref, the timestamp, the clock, nor any answer but the first |
| RunProperties.DispatchSpecFailure | workflow/dispatch/src/main.ts:106-111 | an unreadable ref or a throwing dispatch records "Error dispatching workflow", sets no output and makes no check |
| RunProperties.DispatchFailure | workflow/dispatch/src/main.ts:105-111 | the same, for the whole run |
| RunProperties.DispatchOnlyFlagIff | workflow/dispatch/src/main.ts:60 | dispatch-only mode is selected exactly when `dispatch_only` spells `true` in any mix of upper and lower case |
| RunProperties.DispatchOnlyMode | workflow/dispatch/src/main.ts:113-121 | dispatch-only mode makes one dispatch of the resolved ref and no check; it sets `workflow_id` to the snapshot's `id` (`undefined` after an envelope), `finished` false and `signed_artifacts` empty |
| RunProperties.FullModeTrace | workflow/dispatch/src/main.ts:105-146 | full mode is the dispatch followed by the poll loop from the dispatched snapshot |
| RunProperties.FullModeRequests | workflow/dispatch/src/main.ts:107-135 | full mode sends the dispatch of the resolved ref and then exactly the expected checks |
| RunProperties.FullModeFailures | workflow/dispatch/src/main.ts:105-149 | full mode records the dispatch's envelope failure, then the loop's expected failures |
| RunProperties.FullModeEnds | workflow/dispatch/src/main.ts:132-167 | full mode ends as its stopping answer says, with that answer's outputs |
| Index.Script | workflow/dispatch/src/index.ts:25-120 | the script step by step produces exactly `ScriptSpec`: a ref failure that does not stop it, a dispatch whose throw ends it in the outer `catch`, a dispatch envelope that does not stop it, then the status loop |
| Index.Watch | workflow/dispatch/src/index.ts:65-116 | the status `while` loop and the code after it produce exactly `WatchSpec` for the dispatched id |
| Index.ScriptSpec | workflow/dispatch/src/index.ts:25-120 | no contract of its own: `ScriptRequests`, `ScriptFailures` and `ScriptArtifacts` state the whole script |
| Index.Prelude | workflow/dispatch/src/index.ts:25-57 | no contract of its own: `PreludeRecords` states what happens before the loop |
| Index.WatchSpec | workflow/dispatch/src/index.ts:65-116 | no contract of its own: `WatchRequests`, `WatchFailures` and `WatchOutputs` state the loop against reference definitions |
| Index.RefName | workflow/dispatch/src/index.ts:25-30 | no contract of its own: `ScriptRequests` states that the dispatch carries the resolved ref, or `""` when the ref cannot be read |
| Index.EnvelopeEvents | workflow/dispatch/src/index.ts:89-91 | no contract of its own: `PassRecords` and `PreludeRecords` state that only an error envelope records a failure, its prefix followed by the message |
| Index.StatusPoll | workflow/dispatch/src/index.ts:75-81 | no contract of its own: `PassRecords` states that a pass sleeps once and sends one status request for the dispatched id |
| Index.StatusLine | workflow/dispatch/src/index.ts:96-98 | no contract of its own: `PassRecords` states that each parsed pass ends with a note of `last_status \|\| ""` |
| Index.ArtifactsValue | workflow/dispatch/src/index.ts:116 | no contract of its own: `ArtifactsFromLastCheck` states the `artifacts` value it gives |
| IndexProperties.PassRecords | workflow/dispatch/src/index.ts:75-98 | a pass whose answer parsed sleeps once, first, sends one status request, records only the envelope's failure, ends with a note of `last_status \|\| ""` and sets no output |
| IndexProperties.WatchRequests | workflow/dispatch/src/index.ts:77 | the loop sends one status request per counted pass, and every one is for the id the dispatch answered with |
| IndexProperties.WatchFailures | workflow/dispatch/src/index.ts:83-119 | the loop records one failure per envelope, the error of a throwing request, and the timeout message at the deadline |
| IndexProperties.WatchOutputs | workflow/dispatch/src/index.ts:116 | the loop's only output is `artifacts`, with the value `ArtifactsFrom` expects |
| IndexProperties.ArtifactsFromLastCheck | workflow/dispatch/src/index.ts:93-116 | `artifacts` holds the assets of the last status answer when it has the field, otherwise `"[]"` (also when no pass ran); it is not set when that request throws |
| IndexProperties.PreludeRecords | workflow/dispatch/src/index.ts:25-57 | before the loop: one dispatch request; the ref failure when the ref is unreadable; the dispatch's throw or envelope failure; no output |
| IndexProperties.ScriptRequests | workflow/dispatch/src/index.ts:26-77 | the script dispatches the resolved ref (`""` when unreadable) and, unless the dispatch throws, polls the dispatched id once per counted pass |
| IndexProperties.ScriptFailures | workflow/dispatch/src/index.ts:25-120 | the script records the ref failure, the dispatch failure and then, unless the dispatch threw, the loop's failures |
| IndexProperties.ScriptArtifacts | workflow/dispatch/src/index.ts:116-120 | `artifacts` is the script's only output; it is not set when the dispatch throws, and is otherwise the loop's value |

## Left out

- The HTTP transport is not modelled, because only the answer to each call matters here. This covers `ky.post`, its URL prefix, its headers and the 60 s per-call timeout. The `!response.ok` branches of main.ts:17-20 and index.ts:48-51 are not modelled either: `ky` throws before they run, so they are part of `Throw`.
- Log text is not modelled, because it is not observable state. This covers `core.info` and `core.debug`, except the status notes, which are kept. So is the index.ts completion message (index.ts:104-113); it reads the dispatch answer's `release_assets`, not the status answer's, but only for logging.
- `JSON.stringify` and `toISOString` are uninterpreted. An asset list is kept as a value (`AssetsJson`), and the timestamp is a parameter.
- Only the ASCII part of `toLowerCase` is modelled. Other Unicode case mappings are left out.
- `numErrors` and `numErrorsMax` are declared but never used, so there is nothing to model.
- `github.context.repo.repo` appears only in log text. Its getter can throw when the repository variable is missing, and that case is not modelled.
- Async scheduling, `setTimeout` and process exit are replaced by the clock sequence and the `Completion` of the trace. An unhandled rejection of `run()` is kept as `Rejected(reason)`.
- Every thrown error `err` is modelled by the text of its message. The `String(err)` form of a non-`Error` throw is not distinguished.
- The two scripts are not fail-fast: `core.setFailed` only records a failure. An envelope or a failed ref read therefore records a failure and execution goes on.
- Ref resolution is not a strip of one leading prefix. The code removes the first occurrence of each pattern anywhere in the ref, and the model follows it. `BranchNameHoldingTagPattern` shows a ref on which the two readings differ.
- Models.Outcome: a parsed answer is either a snapshot that has an `id` and no `message`, or exactly `{ message }` with no other field. Parsed bodies with neither `id` nor `message` (such as `{}` or `[]`) are not modelled, and neither are bodies that carry a `message` together with snapshot fields. In the code, `{"message":"m","completed":true}` records the failure and still completes (main.ts:141-166); in the model an envelope never completes, so polling goes on.
- A dispatch answer without an `id` raises no protocol error. In the model this applies only to an error envelope: it becomes the path segment `"undefined"` and the `workflow_id` output `undefined`, as in the code.
- Termination of the real loops comes from the clock: the model takes a finite clock sequence whose last reading is past the deadline. The 5760-check bound (`PollBound`) is claimed only for readings that are at least one sleep apart.
