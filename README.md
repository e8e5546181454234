# kustomize-action, modelled in Dafny

This project models the core of the GitHub Action `int128/kustomize-action` and proves properties of it. The action runs `kustomize build` over many kustomizations with a bounded pool of workers. It can redact the values of Kubernetes Secrets in the rendered YAML, and it can comment the build errors on the pull request.

The model covers five parts of the action:

- **Secret redaction** (`redact.dfy`, `redact_idempotence.dfy`).
  - The YAML stream is cut on lines that are exactly `---`. This is the document marker of section 9.1.2 of YAML 1.2, recognised only as text.
  - A document counts as a Secret when it has a `kind: Secret` line and an `apiVersion: v1` line.
  - In a Secret, the `data:` and `stringData:` blocks are rewritten line by line. The line scanner is the imperative method `RedactDataField`. It is proved equal to the functional scanner `ScanFrom`, and the properties are proved about `ScanFrom`.
  - The file step decides whether a file was changed, taking the file system as inputs.
- **The build pool** (`build.dfy`, `shared_queue.dfy`).
  - `kustomizeBuild` validates `maxProcess` and copies the list into a shared queue. Workers drain the queue from the front, and each worker keeps a flag recording whether any of its builds failed.
  - `build` creates the output directory and runs `kustomize build` with the argument list chosen by `writeIndividualFiles`.
- **The generic executor** (`executor.dfy`). It drains the caller's own queue with `concurrency` workers and concatenates the workers' result lists in worker order.
- **The retry loop** of `kustomize.ts` (`kustomize.dfy`). It makes up to `retryMaxAttempts` attempts, returns early on exit code 0 and waits `retryWaitMs` after each failure, then makes one final attempt whatever happens.
- **The error comment** (`comment.dfy`). It holds one Markdown block per error, the link to the kustomization file, and the comment body built from the header, the body and the footer.

The model replaces the outside world as follows:

- Concurrency becomes a *schedule*. `schedule[k]` is the worker that performs the k-th `queue.shift()`.
  - An async worker runs synchronously up to its first `await`. So the first `min(workers, tasks)` pops go to workers 0, 1, … in order, and `IsSchedule` requires exactly that.
  - Every later pop may go to any worker.
- Processes are oracles:
  - `exitCode(k)` is the exit code of the k-th build;
  - `exec(i)` is the output of the i-th `kustomize` attempt;
  - `run` is what a task computes.
- Directory creation and process invocation are recorded as a trace of effects.
- `path.relative('.', dir)` is a function parameter. The GitHub context is a value.

Some behaviour of the code, proved about the model:

- `redactSecretsInYaml` is not idempotent. In a `data:` block, a key whose value opens a block scalar (`a: |`) followed by a sibling key at the same indentation keeps the sibling's value on the first run. The next run redacts it. `RedactIdempotence.SecretRedactionNotIdempotent` shows this on a five-line Secret, and `Redact.RedactedFieldNotIdempotent` shows it for every document of that shape.
- Where a Secret's `data` block opens no block scalar, a second run changes nothing. The block may hold blank lines and lines without a colon, and it may run to the end of the text, trailing line break included. `Redact.RedactedFieldIdempotent` proves this for one field. `RedactIdempotence.PlainSecretRedactionIdempotent` proves it for a whole stream that is one such Secret. Its `kind` and `apiVersion` lines may come in either order, anywhere outside the block. It has no `stringData:` header, and none of its lines is a `---` marker. Lines such as `name: my-secret` and `api-key: …` are allowed.
- A block scalar that runs to the end of a Secret document also drops the document's last, empty line. The redacted document then ends with `[REDACTED]` instead of a line break. The `---` that follows is glued to it (`a: [REDACTED]---`), so it is no longer a document marker and the next document is no longer separated from the Secret. `RedactIdempotence.MarkerGluedAfterBlockScalar` proves this.
- `build.ts` does not use `kustomize.ts`'s `run` or `executor.ts`'s `execute`. It runs its own worker pool and calls `exec.exec` once per kustomization, with no retry. It throws a count of failed workers instead of returning per-build results. The three are modelled separately, as written.

## Model

| member | source | states |
|---|---|---|
| Redact.SplitDocuments | src/redact.ts:55 | cutting a stream on `/^---$/m` yields at least one document |
| Redact.SplitDocumentsJoin | src/redact.ts:55-69 | joining the documents with `---` gives back the input exactly, so blank and non-Secret documents survive byte for byte |
| Redact.SplitDocumentsFromJoin | src/redact.ts:55-69 | the same round trip for the documents of any suffix, the induction behind `SplitDocumentsJoin` |
| Redact.NoMarkerOneDocument | src/redact.ts:55 | text in which `/^---$/m` matches nowhere is a single document |
| Redact.NoDashNoMarker | src/redact.ts:55 | text without a `-` holds no marker |
| Redact.MarkerInPrefix | src/redact.ts:55 | a marker of a text that ends within its first part is a marker of that part |
| Redact.MarkerInSuffix | src/redact.ts:55 | a marker of a text that starts within its second part is a marker of that part |
| Redact.NoMarkerAcrossBreak | src/redact.ts:55 | two texts without a marker, glued by a line break, hold none |
| Redact.NoMarkerInJoin | src/redact.ts:55 | lines without a marker, joined with `\n`, hold none |
| Redact.IsSecretDocument | src/redact.ts:96-99 | the definition of the two tests: some span from a line start to a line end matches `\s*kind:\s*Secret\s*`, and some matches `\s*apiVersion:\s*v1\s*`; the white space may cross line breaks, as `\s` does |
| Redact.SecretNotBlank | src/redact.ts:58-61 | a Secret never trims to nothing, so the `map` callback always hands it to `redactSecretInDocument` |
| Redact.SecretDocumentByLines | src/redact.ts:96-99 | a document with whole lines trimming to `kind: Secret` and to `apiVersion: v1` passes both tests |
| Redact.ShapedWithOneSpace | src/redact.ts:97-98 | a line that trims to key, one blank and value matches `^\s*key\s*value\s*$` |
| Redact.IsHeader | src/redact.ts:117 | the definition of the header test: the line trims to the field name and a colon |
| Redact.ValueOf | src/redact.ts:152-154 | the definition: the trimmed text after the first colon |
| Redact.StartsBlockScalar | src/redact.ts:160 | the definition: the value starts with a pipe, `>` or `-` |
| Redact.KeyOf | src/redact.ts:152-153 | the key is the text before the first colon: a prefix of the line, followed by `:`, with no colon in it |
| Redact.RedactLine | src/redact.ts:151-157 | a redacted entry still contains a colon |
| Redact.Step | src/redact.ts:113-180 | one iteration of the loop: at most one line is pushed, and it is the line itself or its redaction; a line is dropped only while skipping a block scalar inside the block; only a header line enters the block |
| Redact.ScanFrom | src/redact.ts:112-181 | the definition: the loop run over a list of lines from a given state, as a left fold of `Step`; the `Scan…` lemmas state what it does |
| Redact.RedactedField | src/redact.ts:104-184 | the definition of `redactDataField`: split on `\n`, scan from the initial state, join with `\n`; `RedactDataField` is proved to compute it |
| Redact.RedactDataField | src/redact.ts:104-184 | the loop over lines with four state variables computes `RedactedField`; with no header line for the field it returns the document unchanged |
| Redact.ScanCompose | src/redact.ts:112-181 | scanning two stretches of lines is scanning the first and then the second from the state it left |
| Redact.ScanCons | src/redact.ts:112-181 | scanning a line and then the rest composes the same way |
| Redact.ScanSnoc | src/redact.ts:112-181 | scanning the lines up to the last one and then one step on it is scanning them all |
| Redact.ScanOutputBound | src/redact.ts:112-181 | each input line yields at most one output line |
| Redact.ScanWithoutHeader | src/redact.ts:112-181 | outside a block and with no header line, the state is unchanged and every line is copied |
| Redact.RedactedFieldWithoutHeader | src/redact.ts:104-184 | a document with no exact `<indent><field>:` line (so `data: {}` included) comes back unchanged |
| Redact.LinesBeforeHeaderKept | src/redact.ts:117-122 | every line before the first header line is copied as it is |
| Redact.ScanAfterHeader | src/redact.ts:117-122 | from the header on, the scan runs inside the block at the header's indentation, after the copied prefix and header |
| Redact.HeaderStep | src/redact.ts:117-122 | a header line is copied and enters the block at its own indentation, whatever the state |
| Redact.RedactLineFixed | src/redact.ts:151-162 | redacting `key: [REDACTED]` gives it back, and `[REDACTED]` does not open a block scalar |
| Redact.EntryValueFixed | src/redact.ts:151-154 | a `key: value` entry with an unpadded value reads back as that key and value |
| Redact.RedactedEntryShape | src/redact.ts:151-162 | a redacted entry keeps its indentation, is not a header and does not open a block scalar |
| Redact.RedactLineChars | src/redact.ts:152-157 | redaction brings in no line break and no `-` |
| Redact.RedactLineNoMarker | src/redact.ts:152-157 | a redacted line holds no marker when the line held none |
| Redact.RedactedMarkerInKey | src/redact.ts:152-157 | a marker of a redacted line lies in its key, so it is a marker of the line |
| Redact.RedactEntry | src/redact.ts:150-165 | what the scanner pushes for a block line outside a block scalar: a line with a colon is redacted, any other line is kept |
| Redact.RedactLines | src/redact.ts:150-165 | line k of the result is line k passed through `RedactEntry`, one for one |
| Redact.PlainBodyRedacted | src/redact.ts:137-175 | inside a block, a run of lines that opens no block scalar comes out with each entry redacted and blank and colon-less lines kept, with the state unchanged |
| Redact.BlockLineStep | src/redact.ts:137-175 | one such line, blank lines included, is pushed as `RedactEntry` gives it, and the state stays in the block |
| Redact.PlainEntryStep | src/redact.ts:150-165 | one plain entry is replaced by its redaction and the state stays in the block |
| Redact.BlockEnds | src/redact.ts:126-134 | the first non-blank line no deeper than the header is copied, leaves the block, and the rest is copied |
| Redact.BlockScalarDropped | src/redact.ts:137-162 | after a key whose value starts with a pipe, `>` or `-`, the key is redacted and its deeper or blank continuation lines are dropped |
| Redact.BlockScalarStep | src/redact.ts:150-162 | a key whose value opens a block scalar is redacted and starts skipping at its own indentation |
| Redact.ContinuationDropped | src/redact.ts:137-148 | while skipping, blank and deeper lines produce no output |
| Redact.SiblingAfterBlockScalarCopied | src/redact.ts:166-175 | the first line at or above the block-scalar key's indentation (deeper than the header) ends the skip and is copied unredacted |
| Redact.SiblingCopiedAfterBlockScalar | src/redact.ts:145-175 | a block-scalar key followed by a sibling key: the key is redacted, the sibling is copied with its value |
| Redact.SiblingRedactedOnSecondPass | src/redact.ts:150-165 | scanning that output again redacts the sibling |
| Redact.RedactedFieldNotIdempotent | src/redact.ts:104-184 | for every document of that shape, the first pass keeps the sibling's value and the second pass redacts it |
| Redact.LinesOfJoin | src/redact.ts:105 | splitting lines joined with `\n` on `\n` gives them back |
| Redact.FirstPassOutput | src/redact.ts:112-181 | the lines the first pass pushes for such a document |
| Redact.SecondPassOutput | src/redact.ts:112-181 | the lines the second pass pushes for its output |
| Redact.RedactedLineStaysPlain | src/redact.ts:137-175 | a redacted block line is a block line again and redacts to itself |
| Redact.RedactedBodyStaysPlain | src/redact.ts:137-175 | a redacted body that opened no block scalar opens none, and redacts to itself |
| Redact.RedactedBodyFixed | src/redact.ts:137-175 | inside a block, a body that is already redacted comes out unchanged, with the state unchanged |
| Redact.BodyThenBlockEnd | src/redact.ts:126-175 | inside a block, the body is redacted, and the lines from the one that ends the block on are copied |
| Redact.PlainBlockOutput | src/redact.ts:112-181 | a document whose block opens no block scalar, and ends at a line no deeper than its header or at the end of the text, comes out with each entry of the block redacted and every other line copied |
| Redact.RedactEntryAdds | src/redact.ts:150-165 | redacting one line brings in no line break, no header line and no marker |
| Redact.RedactedBlockFree | src/redact.ts:150-165 | redacting a block's body brings in no line break |
| Redact.RedactedBlockNoHeader | src/redact.ts:150-165 | redacting a block's body brings in no header line |
| Redact.RedactedBlockNoMarker | src/redact.ts:150-165 | redacting a block's body brings in no marker |
| Redact.RedactedFieldIdempotent | src/redact.ts:104-184 | for a document whose field block opens no block scalar, the first pass redacts each entry and keeps every other line, and a second pass gives the same text back |
| Redact.BlockScalarAtEndDropsLastBreak | src/redact.ts:137-162 | when a block scalar runs to the end of the document, the document ends with a line break but its redaction ends with `]`: the last, empty line is dropped with the scalar |
| Redact.BlockScalarToEnd | src/redact.ts:117-162 | a document that ends in a block scalar is redacted to the lines before the scalar's key and the key redacted |
| Redact.RedactDocuments | src/redact.ts:57-67 | one redacted document per document, in order |
| Redact.RedactSecretInDocument | src/redact.ts:75-91 | the definition: a non-Secret is returned as it is; a Secret has its `data` block and then its `stringData` block redacted |
| Redact.RedactDocument | src/redact.ts:57-67 | the definition of the `map` callback: a blank document is kept as it is, any other is passed to `redactSecretInDocument` |
| Redact.RedactSecretsInYaml | src/redact.ts:53-70 | the definition: split on `/^---$/m`, redact each document, join with `---`; `YamlWithoutSecretsUnchanged` and the `RedactIdempotence` lemmas state what it does |
| Redact.YamlWithoutSecretsUnchanged | src/redact.ts:53-79 | a stream with no Secret document comes back unchanged |
| Redact.RedactSecretsInFile | src/redact.ts:33-48 | the file is written exactly when it was read and its redaction differs from it; true is reported exactly when that write succeeded |
| Redact.FileWithoutSecretsUntouched | src/redact.ts:33-48 | a file with no Secret is neither written nor reported |
| RedactIdempotence.SingleDocument | src/redact.ts:53-69 | a non-blank text without a marker is redacted as one document |
| RedactIdempotence.NoCharInJoin | src/redact.ts:183 | joining lines with `\n` adds no other character |
| RedactIdempotence.LineInJoin | src/redact.ts:96-99 | each of several lines joined with `\n` is a whole line of the text, with a multiline `^` before it and `$` after it |
| RedactIdempotence.SecretByLines | src/redact.ts:96-99 | lines of which one trims to `kind: Secret` and one to `apiVersion: v1`, in either order and anywhere, join to a non-blank Secret |
| RedactIdempotence.SecretAtLines | src/redact.ts:96-99 | a text holding whole lines that trim to `kind: Secret` and `apiVersion: v1` is a non-blank Secret |
| RedactIdempotence.FieldPasses | src/redact.ts:85 | the pass over a field's block in five lines with a block-scalar key and a sibling key, on the input and on its output |
| RedactIdempotence.StringDataPass | src/redact.ts:88 | the `stringData` pass leaves lines with no `stringData:` header alone |
| RedactIdempotence.WholeSecret | src/redact.ts:53-91 | a five-line Secret with no `-` is redacted by the two field passes |
| RedactIdempotence.SecretWithSiblingNotIdempotent | src/redact.ts:53-184 | redacting the Secret keeps the sibling's value, and redacting the output redacts it |
| RedactIdempotence.LastLineDiffers | src/redact.ts:183 | line lists that differ in their last line join to different texts |
| RedactIdempotence.RedactTwiceDiffers | src/redact.ts:53-184 | whenever the sibling is not already redacted, redacting twice differs from redacting once |
| RedactIdempotence.SecretRedactionNotIdempotent | src/redact.ts:53-184 | on the lines `kind: Secret`, `apiVersion: v1`, `data:`, `  a:` with a pipe value, and `  b: v`, one pass gives `  a: [REDACTED]` with `  b: v` kept, and a second pass changes the text again |
| RedactIdempotence.PlainSecretRedactionIdempotent | src/redact.ts:53-184 | a stream that is one Secret, with no line a `---` marker, whose only `data` block opens no block scalar and ends at a line no deeper than its header or at the end of the text (blank lines and a trailing line break allowed), whose `kind` and `apiVersion` lines lie anywhere outside that block, and which has no `stringData:` header: one run redacts each entry of the block and keeps every other line, and a second run gives the same text back |
| RedactIdempotence.PlainSecretFieldPasses | src/redact.ts:82-90 | the `data` and `stringData` passes over such a Secret and over its output |
| RedactIdempotence.RedactedSecretStaysSecret | src/redact.ts:75-91 | lines outside the block's body, the `kind` and `apiVersion` lines among them, are the same before and after the body is redacted |
| RedactIdempotence.MarkerGluedAfterBlockScalar | src/redact.ts:53-184 | when the first document of a stream is a Secret whose `data` block ends in a block scalar running to the end of the document, the redacted stream has that Secret's redaction, ending in `]`, directly followed by `---`, which then does not start a line and is no document marker |
| RedactIdempotence.GluedSecretDocument | src/redact.ts:57-91 | such a Secret is redacted to its lines up to the block-scalar key, with the key redacted and no line break after it |
| RedactIdempotence.GluedSecretStringDataPass | src/redact.ts:88 | the `stringData` pass leaves those lines alone |
| RedactIdempotence.MarkerAfterUnclosedLine | src/redact.ts:69 | documents joined with `---`, the first ending in a character that ends no line: the first `---` does not start a line |
| SharedQueue.Queue.Concat | src/build.ts:21 | `concat()` makes a queue holding the same items |
| SharedQueue.Queue.Shift | src/executor.ts:15 | `shift()` on an empty queue yields undefined and leaves it empty; otherwise it yields the head and removes it |
| SharedQueue.IsSchedule | src/executor.ts:4-6 | the definition of a run: one worker index per element, each below the worker count, and the first elements taken by the workers in start order |
| SharedQueue.TasksOf | src/executor.ts:12-21 | a worker takes at most the tasks there are |
| SharedQueue.Partition | src/executor.ts:12-21 | one task list per worker |
| SharedQueue.Flatten | src/executor.ts:9 | the definition of `flat()`: the lists concatenated in order; `FlattenAppendAt` and `PartitionIsPermutation` state its properties |
| SharedQueue.TasksOfSnoc | src/executor.ts:15-19 | the next pop extends only its worker's list, by that task |
| SharedQueue.PartitionSnoc | src/executor.ts:15-19 | the same for all workers at once |
| SharedQueue.PartitionLast | src/executor.ts:15-19 | the last task taken sits at the end of its worker's list, the other lists are those of the shorter run |
| SharedQueue.FlattenAppendAt | src/executor.ts:9 | appending to one worker's list adds that task to the flattened contents |
| SharedQueue.AppendKeepsPermutation | src/executor.ts:9 | adding the next task to one list keeps the lists together a permutation of the tasks taken |
| SharedQueue.PartitionIsPermutation | src/executor.ts:12-21 | under any schedule the workers' lists together hold every task exactly once |
| SharedQueue.EmptyPartition | src/executor.ts:15-17 | no tasks means no worker takes any |
| SharedQueue.SingleWorkerTakesAll | src/executor.ts:12-21 | a single worker takes every task in queue order |
| SharedQueue.FirstTaskOfWorker | src/executor.ts:4-6 | worker w's first task is task w, because workers start in index order |
| SharedQueue.NotYetStarted | src/executor.ts:4-6 | a worker whose index is past the tasks takes none |
| Executor.Apply | src/executor.ts:19 | one result per task |
| Executor.WorkerResults | src/executor.ts:12-21 | one result list per worker |
| Executor.ApplyAppend | src/executor.ts:19 | running tasks appended is running each part |
| Executor.WorkerResultsSnoc | src/executor.ts:15-19 | the next task's result is appended to its worker's list only |
| Executor.Execute | src/executor.ts:3-21 | below one worker: no result and the queue untouched; otherwise the caller's queue is emptied, every task is run once in pop order, and the result is the workers' lists concatenated in worker order |
| Executor.ApplyTasksOf | src/executor.ts:12-21 | a worker's results are the results of its tasks |
| Executor.ResultsArePermutation | src/executor.ts:8-9 | the result has one entry per task and is a permutation of the task results |
| Executor.SingleWorkerKeepsOrder | src/executor.ts:3-21 | with one worker the results are in queue order |
| Executor.EmptyQueueNoResults | src/executor.ts:15-17 | an empty queue yields `[]` |
| Executor.EveryWorkerStarts | src/executor.ts:4-6 | while tasks remain, worker w runs task w first |
| Kustomize.MaxInvocations | src/kustomize.ts:12-26 | at least one invocation is always made |
| Kustomize.AttemptsFrom | src/kustomize.ts:12-26 | with attempts from the i-th on still to come, at least one more invocation is made and at most up to `retryMaxAttempts + 1` in all; stopping before that means the last attempt exited with 0 |
| Kustomize.FirstSuccessStops | src/kustomize.ts:17-19 | the first zero exit inside the loop ends it, after exactly that many invocations |
| Kustomize.AllFailuresExhaust | src/kustomize.ts:12-26 | if all loop attempts fail, `retryMaxAttempts + 1` invocations are made, or exactly one when `retryMaxAttempts <= 0` |
| Kustomize.Run | src/kustomize.ts:11-27 | the attempts made are those `AttemptsFrom` counts, at most `retryMaxAttempts + 1`; all use the same args with `ignoreReturnCode`; the last output is returned; every earlier attempt failed; one wait of `retryWaitMs` follows each failed loop attempt and none follows the last |
| Build.BuildArgs | src/build.ts:50-55 | the arguments are `build`, the kustomization directory, `-o` and a target |
| Build.OutputInsideOutputDir | src/build.ts:50-55 | the target is the output directory exactly when `writeIndividualFiles` is set, and is always inside it |
| Build.TaskEffects | src/build.ts:47-57 | the definition of one build's effects: `mkdirP` of the output directory, then `kustomize` with `BuildArgs` and `ignoreReturnCode` |
| Build.BuildOne | src/build.ts:47-79 | the output directory is created, then `kustomize` runs with `ignoreReturnCode`; its exit code is returned |
| Build.BuildTrace | src/build.ts:21-57 | two effects per kustomization |
| Build.WorkerFlag | src/build.ts:34-45 | the definition of a worker's `anyError` after the first n builds; `WorkerFlagMeans` states what it means |
| Build.WorkerFlags | src/build.ts:26 | one flag per worker |
| Build.CountTrue | src/build.ts:28 | the error count is at most the number of workers |
| Build.Verdict | src/build.ts:26-30 | the run fails exactly when some flag is set, never for `maxProcess`, and a failure reports between 1 and the number of workers |
| Build.KustomizeBuild | src/build.ts:16-45 | `maxProcess < 1` fails with no effect; otherwise every kustomization is built once in queue order with the caller's list untouched, and the verdict is the workers' flags |
| Build.TraceShape | src/build.ts:36-57 | kustomization k's directory is created just before its one `kustomize` invocation |
| Build.EmptyListDoesNothing | src/build.ts:21-31 | an empty list creates nothing, invokes nothing and succeeds |
| Build.WorkerFlagMeans | src/build.ts:35-44 | a worker's flag is set exactly when one of the builds it took failed; a failure does not stop it |
| Build.FailsExactlyWhenABuildFails | src/build.ts:26-30 | `kustomizeBuild` throws exactly when some build failed |
| Build.CountTrueSet | src/build.ts:28 | setting one flag raises the count by at most one |
| Build.CountTruePositive | src/build.ts:27-28 | when some flag is set the count is at least one |
| Build.FlagsAfter | src/build.ts:35-44 | one flag per worker after any number of builds |
| Build.FlagsBoundedByFailures | src/build.ts:35-44 | no more workers are flagged than builds failed |
| Build.NoneSet | src/build.ts:28 | no flag set means a count of zero |
| Build.ErrorCountBounds | src/build.ts:26-30 | the reported count lies between 1 and `maxProcess` and is at most the number of failed builds |
| Comment.FormatErrors | src/comment.ts:27-29 | one block per error, in the same order |
| Comment.ErrorTemplate | src/comment.ts:31-41 | the definition of one error's block: the template lines joined with line breaks; `BlockLines` states its lines |
| Comment.ConsoleText | src/comment.ts:38 | the definition: the trimmed standard error with a line break after every colon; `ConsoleTextInverse` and `ConsoleColonsEndLines` state its properties |
| Comment.KustomizationUrl | src/comment.ts:43-46 | the link starts with the server address and ends with `/kustomization.yaml` |
| Comment.ColonBreaksUndone | src/comment.ts:38 | removing the break after each colon undoes `replaceAll(':', ':\n')` |
| Comment.ConsoleTextInverse | src/comment.ts:38 | the trimmed standard error can be read back from the console section |
| Comment.ReplaceBreaksAfterColons | src/comment.ts:38 | after the replacement every colon ends its line |
| Comment.ConsoleColonsEndLines | src/comment.ts:38 | every colon of the console section ends its line |
| Comment.UrlSegments | src/comment.ts:43-46 | the link's path segments are the server's, owner, repo, `blob`, sha, the directory's, and `kustomization.yaml` |
| Comment.BlockLines | src/comment.ts:31-41 | a block's lines are a blank line, `### dir`, the link, the fence, `$ kustomize build dir`, the console lines, the closing fence and an empty tail; heading and command name the same directory |
| Comment.CommentErrors | src/comment.ts:13-25 | no comment without a pull request; otherwise a comment on that pull request of the repository |
| Comment.CommentLines | src/comment.ts:22 | the comment's lines are the header, the body's lines and the footer |

## Left out

- I/O is modelled as inputs and traces. The model does not read or write files, spawn processes, sleep or call the network: `fs.readFile`/`writeFile` are an optional content and a success flag, `io.mkdirP` and `exec.exec` are effects in a trace, `setTimeout` is a recorded wait.
- Real concurrency and timing are not modelled. `Promise.all` and the await interleavings are replaced by a pop schedule. The schedules allowed are a superset of the ones a real run can produce, so every property proved holds for the real ones.
- Build.KustomizeBuild: the trace places the two effects of each build next to each other, in pop order. In a real run the `mkdirP` and `exec` of different workers interleave.
- Build.KustomizeBuild: a rejection of `io.mkdirP` or `exec.exec` (src/build.ts:48, 57) is not modelled; `exec.exec` rejects when `kustomize` cannot be spawned, even with `ignoreReturnCode`. In the code the rejection leaves the worker and then `Promise.all`, so `kustomizeBuild` rejects with that error instead of the failure count, while the other workers go on taking and building kustomizations. The model's exit-code oracle always answers.
- Build.BuildOne: for the same reason it always returns an exit code; a rejected `mkdirP` or `exec` is not one of its outcomes.
- Kustomize.Run: a rejection of `exec.getExecOutput` (src/kustomize.ts:13, 23) is not modelled. In the code it aborts `run` at once, with no retry and no further attempt. The model's output oracle always answers.
- RedactIdempotence.PlainSecretRedactionIdempotent: idempotence is proved for a stream that is one Secret, with a single `data` block that opens no block scalar and no `stringData` block. Streams of several documents, a Secret with both blocks, and blocks holding a block scalar are not covered; for the last, `RedactIdempotence.SecretRedactionNotIdempotent` shows that idempotence can fail.
- Executor.Execute: a task that throws is not modelled. In the code it rejects `Promise.all` and aborts the run.
- `core.*` logging, groups, warnings and ANSI colouring (src/build.ts:66-78, src/kustomize.ts:20, src/redact.ts:25, 45, 64) are not modelled. They only observe.
- The exact text of error messages is not modelled. An invalid `maxProcess` is an `InvalidMaxProcess` outcome, and a failed run is `Failed(count)`.
- The captured stdout/stderr lines of `build` (src/build.ts:56-63) are not modelled. They are only logged.
- The `createComment` call of src/comment.ts:18-24 is not modelled. The model yields the request it would send.
- `redactSecretsInDirectory` (src/redact.ts:14-27), a glob and a file loop, is left out. Only the per-file decision is modelled.
- The `try`/`catch` around `redactSecretInDocument` (src/redact.ts:60-66) is not modelled. The model's functions are total, so it never fires.
- `path.join` in src/build.ts:54 is modelled as `outputDir + "/generated.yaml"`, without normalisation.
- `path.relative` is an opaque function parameter.
- Non-integer and `NaN` values of `maxProcess`, `concurrency` and `retryMaxAttempts` are not modelled. They are integers.
- Strings are sequences of characters. UTF-16 code units and surrogate pairs are not distinguished.
- `execute` has no callers in the code and is modelled on its own. So is `run` of src/kustomize.ts. The build path (src/build.ts) does not retry.
- src/main.ts, src/run.ts, src/glob.ts, src/copy.ts and src/github.ts are not part of this model. They are input parsing and orchestration, globbing and copying, and environment reads.
