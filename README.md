# CodingAgents hosts, modelled in Dafny

CodingAgents drives chat-model "agents" through a fixed workflow:
- a generator writes code for a task;
- a validator approves it or rejects it;
- a Judge decides whether the task is achieved.

The workflow lives in a `host` function, and there are two variants:

- **stable** (`stable/script.py`) has three agents, each sent a single prompt. A validator rejection and a Judge "no" each cost one iteration.
- **beta** (`beta/script.py`) has five agents, and every one of them is sent the whole conversation log.
  - After approval, the code is saved to `task.<ext>`.
  - For every sample, an adapter rewrites the code to `task_sample_<i+1>.<ext>`, a sample validator vets it up to three times, and the file is run.
  - The Judge then reads a test summary.
  - A validator rejection does not cost an iteration; only a Judge "no" does.

The model states both hosts as imperative Dafny over explicit state:
- a `Run` class whose fields are `iteration`, the log, the written files and (beta) the sample records;
- scripted agents (`Oracle.Agent`), each holding the replies it will give, every message it was sent, and the reply each message got.

Everything outside the hosts is a parameter of the model:
- the chat service is the agents' scripts;
- running a sample file is a total function `execute` from (file name, contents) to its output or the exception raised;
- the file system is a map.

A script that runs out ends `host` with the outcome `Stuck`. The real service never runs out. This is what makes the unbounded retry loops and the `max_iterations == -1` case terminate without a fuel bound.

Each retry loop is proved against a function of the agent's script:
- `Oracle.Retry` for text agents: a "429" error is retried, any other error is a fault, and a text reply is returned;
- `Oracle.Judgment` for the Judge, which also retries an undecodable reply.

The hosts' postconditions state:
- when the loop runs at all;
- how many iterations it used;
- what an exhaustion result returns;
- that a "yes" is backed by the Judge's last reply about approved, saved code, and in beta about the summary of the sample runs;
- that every fault message names an agent whose last call raised a non-rate-limit error;
- which files may have been written.

Modules:
- `Text`: ASCII versions of the Python string operations used (`strip`, `lower`, `in`, `splitlines`, `"\n".join`, `replace`).
- `Naming`: the extension map and file names.
- `Oracle`: scripted agents and the retry policy.
- `Workflow`: what both hosts share (outcome, fixed messages, fence test, "yes" gates).
- `SampleGate`: the beta sample validator loop as a function of the validator's replies.
- `Stable` and `Beta`: one per script.

## Model

| member | source | states |
|---|---|---|
| Text.StripSpec | beta/script.py:68 | `strip()` returns a slice of its input with only whitespace around it, and the result has no whitespace at either end |
| Text.StripIdempotent | beta/script.py:68 | stripping twice is stripping once |
| Text.StripUnpadded | beta/script.py:68 | text with no whitespace at either end is its own strip |
| Text.LowerSpec | beta/script.py:151 | `lower()` keeps the length, lowers each character where it stands, and leaves no upper-case letter |
| Text.ContainsSpec | beta/script.py:154 | `needle in hay` holds exactly when the needle occurs at some index of `hay` |
| Text.SplitLinesSpec | beta/script.py:67 | no line of `splitlines()` holds a line feed, and only "" has no lines |
| Text.SplitJoin | beta/script.py:67 | splitting lines joined with "\n" gives them back when no line holds a line feed and the last one is not empty |
| Text.JoinSplit | stable/script.py:50-51 | joining the lines of a text gives the text back unless it ends with a line feed |
| Text.ReplaceAbsent | stable/script.py:65 | `replace` leaves text without the pattern unchanged |
| Text.ReplaceSuffix | stable/script.py:65 | replacing ".c" (or any dot-led suffix) in a name whose stem has no dot swaps only that suffix |
| Naming.ExtensionFallback | beta/script.py:79 | the extension is "txt" exactly for tags other than python, c, js and nvcc, and the four known tags get four different extensions |
| Naming.DecimalRoundTrip | beta/script.py:187 | the decimal rendering of the sample number reads back as that number |
| Naming.SampleFilesDistinct | beta/script.py:187 | different samples get different `task_sample_<i+1>.<ext>` files, and no sample file is `task.<ext>` |
| Oracle.Retry | stable/script.py:112-126 | the retry policy consumes at most the whole script; an answer is the last reply consumed, which was a text reply; a fault is a last reply that was an error without "429" |
| Oracle.RetrySkips | stable/script.py:119-123 | every reply the policy skipped was a "429" error, and it runs out of replies exactly when all of them are |
| Oracle.RetryAfterRateLimits | stable/script.py:112-126 | after `n` rate-limit errors the policy consumes `n + 1` replies and decides on the next one |
| Oracle.Judgment | stable/script.py:170-203 | the Judge loop consumes at most the whole script; an answer is the reading of the last reply, which was decoded; a fault is a last reply that was an error without "429" |
| Oracle.JudgmentSkips | stable/script.py:179-200 | every Judge reply skipped was a "429" error or undecodable, and the loop runs out exactly when all of them are |
| Oracle.ReadingDefaults | stable/script.py:180-181 | the decision read has no upper-case letter, a missing "response" reads "no" and a missing "explanation" reads "" |
| Oracle.Agent.Send | stable/script.py:114 | one `send_message` takes the next scripted reply and records the message and the reply, or changes nothing when the script is empty |
| Oracle.RetryEffect | stable/script.py:112-126 | after the retry policy the histories only grew by the one message repeated, the script shrank unless it ran out, and the last reply explains the answer or the fault |
| Oracle.Ask | stable/script.py:112-126 | the stable retry loop consumes exactly what `Retry` predicts, sends the same message once per attempt, and returns `Retry`'s answer |
| Oracle.AskJudge | stable/script.py:170-203 | the stable Judge loop consumes exactly what `Judgment` predicts, sends the same request once per attempt, and returns `Judgment`'s answer |
| Workflow.MessagesDistinct | stable/script.py:203-209 | the exhaustion message is no fault message, and the three fault messages differ |
| Workflow.JudgmentAccepting | stable/script.py:170-203 | the Judge loop skips no accepting reply, and the replies it consumed hold an accepting one exactly when it ends with a "yes" answer |
| Workflow.JudgedAccepting | stable/script.py:170-203 | a Judge history extended by one Judge loop gains an accepting reply exactly when the loop answers "yes", and that reply is then the last one |
| Workflow.UnacceptedAppend | stable/script.py:188 | a history has no accepting Judge reply exactly when neither of its two parts has one |
| Workflow.AffirmsIgnoresCase | stable/script.py:150-153 | lower-casing a validator reply does not change whether it approves |
| Workflow.LowerIdempotent | stable/script.py:150 | lower-casing twice is lower-casing once |
| Workflow.StripOfLower | stable/script.py:150 | `strip().lower()` equals `lower().strip()` |
| Workflow.FenceRoundTrip | beta/script.py:66-67 | a code block opened by a fence line and closed by a fence line passes the fence test, and dropping its first and last lines gives back exactly its code lines |
| Workflow.FenceLines | beta/script.py:67 | the lines of a code block are the opening fence, the code lines and the closing fence |
| Workflow.FenceEnds | beta/script.py:66 | a code block starts and ends with three backticks |
| Stable.ParseCodeRoundTrip | stable/script.py:44-52 | stable `parse_code` of a fenced code block is exactly its code lines joined by "\n" |
| Stable.ParseCodeUnfenced | stable/script.py:49-52 | on unfenced text stable `parse_code` is the identity, so it is idempotent there |
| Stable.CommandsShape | stable/script.py:60-79 | exactly python, c, js and nvcc are supported and any other language is the "Unsupported language" error; interpreted languages run `[tool, file]`; compiled ones compile `[tool, file, "-o", b]` and then run `["./" + b]` |
| Stable.TaskFileCommands | stable/script.py:65-77 | `task.c` compiles with gcc to `task.out` and `task.cu` with nvcc to `task.out`, which is then run |
| Stable.VettedExtend | stable/script.py:170-177 | Judge requests about code the validator approved keep every Judge request about approved code |
| Stable.ShapedPass | stable/script.py:130-163 | pass `n` logs its generated code and then one "Validation failed" or "saved" entry, both tagged with iteration `n` |
| Stable.Run.Draft | stable/script.py:112-126 | the generator call returns what `Retry` predicts, the generator is only ever sent the task prompt, and a fault leaves it ended in a non-rate-limit error |
| Stable.Run.Review | stable/script.py:134-153 | the validator call returns what `Retry` predicts, and a reply containing "yes" is recorded as an approval of the code in the validator's history |
| Stable.Run.Assess | stable/script.py:170-203 | the Judge call returns what `Judgment` predicts; an answer is the reading of its last, decoded reply to a request about approved code; the history gains an accepting reply exactly when that answer is a "yes", and it is then the last reply |
| Stable.Run.Pass | stable/script.py:109-206 | the code exists exactly when the generator's `Retry` answered and is that answer stripped and parsed; a generator stall is `Stuck` and a generator fault the "Agent 1" message; a pass that does not return adds exactly one iteration and two log entries, the first holding that code; a pass that returns yields a `Returned` outcome; it returns "yes" exactly when the Judge gave its first accepting reply in this pass |
| Stable.Run.Vet | stable/script.py:150-157 | the step is a rejection exactly when the validator's `Retry` answer lacks "yes", and a rejection logs "Validation failed" and costs an iteration; a validator stall is `Stuck` and a validator fault the "Agent 2" message; an approval saves and judges the code |
| Stable.Run.Conclude | stable/script.py:159-206 | `task.<ext>` is written only with approved code before the Judge is consulted; the Judge loop's answer decides the step: a "yes" returns that code with the explanation, a "no" (exactly) costs an iteration, a fault (exactly) is the "Agent 3" message, and a stall (exactly) is `Stuck` |
| Stable.Run.Host | stable/script.py:97-209 | the loop runs at all exactly when `iteration <= max_iterations or max_iterations == -1` admits 1; with K >= 0 there are at most K passes; exhaustion returns the last generated code after all K passes; -1 never exhausts; "yes" is backed by the Judge's last reply about approved, saved code, and it is returned exactly when some Judge reply accepted, the last one being the only accepting reply; faults name an agent that faulted; only `task.<ext>` is ever written |
| Beta.ParseCodeRoundTrip | beta/script.py:64-68 | beta `parse_code` of a fenced code block is exactly its code lines joined by "\n" |
| Beta.ParseCodeUnfenced | beta/script.py:68 | on unfenced text beta `parse_code` returns a slice of it with only whitespace around, trimmed at both ends |
| Beta.ParseCodeNotIdempotent | beta/script.py:64-68 | " ```x```" parses to "```x```", which parses to "", so `parse_code` is not idempotent |
| Beta.ClosingFenceOnCodeLine | beta/script.py:66-67 | a closing fence written on the last code line drops that line with it |
| Beta.RecordsDescribe | beta/script.py:236-255 | a completed record carries index i+1, the input, the expected output as given, and the stripped output; it passes exactly when the stripped output equals the expected output; a failing record never passes |
| Beta.PaddedExpectationFails | beta/script.py:240-242 | an expected output ending in whitespace can never pass |
| Beta.SummaryBalanced | beta/script.py:261-266 | passed plus failed tests count the records, `total_samples` counts the samples, and all records passed exactly when the passed count is the record count |
| Beta.RetriedSampleOvercounts | beta/script.py:246-266 | a sample retried after an exception leaves two records, so the summary counts two tests for one sample |
| Beta.GrewKeeps | beta/script.py:304-305 | log entries other than generated code and Judge verdicts change neither the verdict count nor the last generated code |
| Beta.SentPrefixes | beta/script.py:106-111 | each message sent by a retry loop is a prefix of the log after it and ends with the prompt |
| Beta.Replay | beta/script.py:106-122 | the beta retry loop appends the prompt before every attempt and sends the whole log; it consumes what `Retry` predicts and returns its answer, leaving one prompt in the log per attempt |
| Beta.ReplayJudge | beta/script.py:267-296 | the beta Judge loop appends the prompt before every attempt and sends the whole log; it consumes what `Judgment` predicts and returns its answer |
| Beta.SentEffect | beta/script.py:106-111 | the messages a retry loop sent keep every agent's history a replay of the log, and an answered call's last message is the whole log, ending with the prompt |
| Beta.ReplayEffect | beta/script.py:131-149 | a retry loop's effect in the terms the host uses: the histories only grow, a stall empties the script, a fault ends in a non-rate-limit error, an answer follows the whole log ending in the prompt |
| Beta.JudgeEffect | beta/script.py:267-296 | the Judge loop's effect in the terms the host uses: an answer is the reading of a decoded last reply to the whole log, which ends in the prompt |
| Beta.ApprovesLast | beta/script.py:133-154 | a last validator call about the code whose reply contains "yes" approves the code |
| Beta.FiledTask | beta/script.py:160-161 | writing approved code to `task.<ext>` keeps the written files within what the host may write |
| Beta.FiledSample | beta/script.py:187-189 | writing a sample file keeps the written files within what the host may write |
| Beta.TaskedGrows | beta/script.py:106-111 | generator requests that repeat the prompt for the task keep every generator request one for that task |
| Beta.ExtendedNext | beta/script.py:74-309 | a log that only grew during a pass extends the chain of logs each pass began with |
| Beta.ExtendedPrefixes | beta/script.py:74-309 | every log in a chain of extensions is a prefix of the final log, so nothing the log held when a pass began is ever lost |
| Beta.CoversNext | beta/script.py:168-257 | failures of sample i followed by the run of its file extend a cover of the first i samples to the first i+1 |
| Beta.GenuineNext | beta/script.py:168-257 | when only sample i's file was written, failures of sample i followed by the run of that file keep every record a failure report or the run of its sample's current file |
| Beta.TestedNext | beta/script.py:168-257 | sample i, whose file holds the last adapter reply parsed and whose last record is the run of that file, joins the tested samples, and the earlier samples stay tested |
| Beta.RetriedNext | beta/script.py:246-257 | another record keeps the earlier failure records, and one more failure of the sample extends them |
| Beta.SamplesNext | beta/script.py:168-257 | processing sample i as the sample loop does extends the run of the first i samples (cover, genuine records, tested samples) to the first i+1 |
| Beta.Run.Append | beta/script.py:127 | `conversation_log.append` adds exactly one entry at the end and changes the verdict, rejection and last-code counts only as that entry says |
| Beta.Run.Call | beta/script.py:131-149 | a retry loop on the log for one text agent: `Retry`'s answer, every agent still sees only replays of the log, and the other state is unchanged |
| Beta.Run.Consult | beta/script.py:267-296 | the Judge loop on the log: `Judgment`'s answer, every agent still sees only replays of the log, and the Judge history gains an accepting reply exactly when that answer is a "yes", as its last reply |
| Beta.Run.Round | beta/script.py:194-227 | one round of the sample validator loop consumes what `Retry` predicts; an approval, a fault or a stall ends the loop where `Screening` ends it, with the counter kept; a reply without "yes" is logged as a rejection, costs one from the counter, and leaves the rest to `Screening` |
| Beta.Run.Check | beta/script.py:194-227 | the sample validator loop ends with the counter and exit `Screening` computes from the validator's script, and consumes exactly the replies it counts; one rejection is logged per decrement; a counter left over means the last reply approved the same modified code; a non-rate-limit error is the "Agent 2" fault |
| Beta.Run.Adapt | beta/script.py:176-182 | the adapter prompt is logged and the whole log is sent once, with no retry |
| Beta.Run.Rewrite | beta/script.py:184-189 | the adapter's reply is logged stripped as the last entry, and its parse is written to the sample's file only |
| Beta.Run.Trial | beta/script.py:184-244 | the sample file holds the adapter reply parsed; the counter and exit are what `Screening` computes; then the file runs and adds exactly one record, which is what running the file gave; the attempt is done exactly when the run produced output |
| Beta.Run.Attempt | beta/script.py:173-257 | an adapter error records `Failing` with its message, keeps the counter and writes nothing; an adapter reply is written to the sample file and screened as `Screening` computes; a pass that goes on adds one record, a failure unless the run produced output, and once done or out of rejections that record is the run of the file holding the last adapter reply parsed |
| Beta.Run.RunSample | beta/script.py:170-257 | a sample ends with failures of that sample followed by one last record, which is what running its file gave; only that file was written and it holds the last adapter reply parsed; at most three rejections are logged, and the file was approved unless all three were used |
| Beta.Run.RunSamples | beta/script.py:168-257 | when the loop ends every record describes one of the samples and is a failure report or the run of that sample's file as written; every sample's file holds an adapter reply parsed and its run is among the records; at most three rejections per sample are logged |
| Beta.Run.Assess | beta/script.py:259-305 | the log is only appended to; the Judge reads the summary of the sample records, and its loop's answer decides the step: a "yes" returns the saved code with the explanation, a "no" (exactly) is logged as the last entry with the decision and explanation and costs one iteration, a fault (exactly) is the "Agent 3" message, a stall (exactly) is `Stuck`; "yes" exactly when the Judge history gains an accepting reply |
| Beta.Run.Decline | beta/script.py:304-305 | a Judge "no" appends the verdict with the decision and explanation and moves to the next iteration, nothing else changing |
| Beta.Run.SaveAndTest | beta/script.py:160-257 | approved code is written to `task.<ext>`; the log becomes the old log plus the "saved" entry, extended only by entries that are neither code nor verdicts; an early end is a `Returned` outcome that is not a "yes"; otherwise the sample loop's records are what `SamplesRun` states |
| Beta.Run.Conclude | beta/script.py:160-305 | the log keeps everything it held and then holds the "saved" entry; approved code is written to `task.<ext>` before the samples run and the Judge is consulted; a return is a `Returned` outcome (a "yes" about that saved code and the sample runs), a Judge "no" adds one verdict and one iteration and keeps the last generated code; "yes" exactly when the Judge history gains an accepting reply |
| Beta.Run.Review | beta/script.py:131-152 | the validator call on the log returns what `Retry` predicts; the log only grows, and on an answer it is exactly the old log, the validator prompt once per attempt and the stripped reply; a reply containing "yes" is an approval of the code |
| Beta.Run.Vet | beta/script.py:131-163 | the log is only appended to; the step is a rejection exactly when the validator's `Retry` answer lacks "yes", and a rejection leaves the log as the old log, the validator prompt once per attempt, the stripped reply and "Validation failed", keeping the iteration; a validator fault is the "Agent 2" message; an approval goes on to save, sample and judge |
| Beta.Run.Pass | beta/script.py:103-127 | every generator request asks for `task` in `language`; the log is only appended to, and starts with the old log, the generator prompt once per attempt and the code; the code exists exactly when the generator's `Retry` answered and is that answer stripped and parsed; a generator fault is the "Agent 1" message; a pass that does not return either keeps the iteration (rejection) or adds one verdict and one iteration (Judge "no"); "yes" exactly when the Judge history gains an accepting reply |
| Beta.Run.Host | beta/script.py:74-309 | the loop runs at all exactly when the budget admits iteration 1; the iteration is always one more than the Judge verdicts logged, so with K >= 0 at most K verdicts; exhaustion returns the last generated code after K verdicts; -1 never exhausts; "yes" is backed by the Judge's last reply to the log ending in the summary of the sample runs of approved, saved code, and it is returned exactly when some Judge reply accepted, the last one being the only accepting reply; faults name an agent that faulted; every generator request asks for `task`; the logs each pass began with form a chain of prefixes of the final log, starting from the empty log; only `task.<ext>` and the sample files are ever written |
| SampleGate.Screening | beta/script.py:194-227 | the sample validator loop as a function of the validator's script: it consumes at most the script and never adds to the counter |
| SampleGate.ScreeningCalls | beta/script.py:194-227 | one round of the loop is the retry policy's answer: a stall or a fault ends it with the counter kept, an approval ends it with no exit, a rejection continues on the rest with one less |
| SampleGate.ScreeningCounts | beta/script.py:213-216 | the counter drops by exactly the number of replies without "yes" among the replies consumed |
| SampleGate.ScreeningStops | beta/script.py:213-218 | no reply before the last one consumed was an approval, so an approval ends validation |
| SampleGate.ScreeningEnds | beta/script.py:194-218 | the loop ends with no exit and a counter left over exactly when the last reply consumed was an approval |
| SampleGate.CountRejectingAppend | beta/script.py:213-216 | the rejections in two runs of replies add up |

## Left out

- The Gemini SDK (`create_agent`, `send_message`, the generation configurations): replaced by scripted agents. The model's `Stuck` outcome (a script ran out) has no counterpart in the scripts.
- Agent selection from the configuration (beta/script.py:81-94, stable/script.py:85-94): it is SDK setup. The `len(agents)==4` branch of beta reads a fifth model name.
- Beta `execute_code` (beta/script.py:38-62): running the sample file is the total function `execute` on (file name, contents). It returns the stripped streams or the exception raised, which the sample loop records as a failing result.
- Subprocess execution, compilers and the file system in stable `execute_code`: only the command selection is modelled.
- `time.sleep` pacing and back-off, the even-iteration pause, and `get_timestamp`: timing only. Log entries carry the iteration and not the timestamp.
- `json.loads` and `json.dumps`: the Judge's reply is an already-decoded value, or `DecodeError`. A decoded value that is not an object, or whose "response" is not a string, is `Unreadable`: reading it raises, which the model treats as the "Agent 3" fault, as the source's broad `except` does.
- A decoded "explanation" that is not a string: the source passes it through unread, while the model's explanation is always a string.
- Prompt wording: each prompt and log line is a constructor that carries the values interpolated into it (language, task, code, sample input, decision, explanation, test summary).
- The "Failed to parse Agent 3 response." explanation: it is overwritten before any read, so it never reaches a result.
- `main`, configuration loading and all printing: I/O.
- Python's Unicode behaviour of `strip`, `lower` and `splitlines`: the model uses ASCII whitespace, ASCII lower-casing and "\n" as the only line break.
- Beta.Run.Check: the fault from the sample validator returns the "Agent 2" message, as the source does. The contract therefore attributes the "Agent 2" fault to the validator or the sample validator.
- Beta.Run.Host: the record list's contents are stated only through `Returned` on a "yes" (`SamplesRun`: every record is a failure report or the run of its sample's file, and every sample was tested). Records of earlier iterations are overwritten by `sample_results = []` and are not stated.
- Stable.Run.Host: `samples` is accepted and ignored, as in the source.
