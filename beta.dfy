/** The beta host (beta/script.py): five agents that all receive the whole
    conversation log, a validation gate that does not consume an iteration,
    a per-sample adapt/validate/execute loop, and a Judge reading a test
    summary. */
module Beta {
  import opened Text
  import opened Oracle
  import opened Workflow
  import Naming
  import opened SampleGate

  /** `parse_code`: a fenced reply loses its first and last line, any other
      reply is stripped of surrounding whitespace. */
  function ParseCode(raw: string): string {
    if Fenced(raw) then Unfence(raw) else Strip(raw)
  }

  /** A fenced code block comes back as exactly its code lines. */
  lemma ParseCodeRoundTrip(tag: string, lines: seq<string>)
    requires '\n' !in tag
    requires forall k :: 0 <= k < |lines| ==> '\n' !in lines[k]
    ensures ParseCode(Fence(tag, lines)) == JoinLines(lines)
  {
    FenceRoundTrip(tag, lines);
  }

  /** Unfenced text comes back as a slice of itself with only whitespace
      around it, and with no whitespace at either end. */
  lemma ParseCodeUnfenced(raw: string)
    requires !Fenced(raw)
    ensures exists i :: TrimmedAt(raw, ParseCode(raw), i)
    ensures var r := ParseCode(raw); r == [] || (!IsSpace(r[0]) && !IsSpace(r[|r| - 1]))
  {
    assert ParseCode(raw) == Strip(raw);
    StripSpec(raw);
  }

  /** `parse_code` is not idempotent: stripping can expose a fence that the
      second call then removes together with the code. */
  lemma ParseCodeNotIdempotent()
    ensures ParseCode(" ```x```") == "```x```"
    ensures ParseCode("```x```") == ""
    ensures ParseCode(ParseCode(" ```x```")) != ParseCode(" ```x```")
  {
    var fenced := "```" + "x```";
    var padded := " " + fenced;
    assert padded[0] == ' ' && !Fenced(padded);
    assert TrimStart(padded) == fenced by {
      assert padded[1..] == fenced;
    }
    assert TrimEnd(fenced) == fenced;
    assert fenced[..3] == "```" && fenced[|fenced| - 3..] == "```";
    assert LineEnd(fenced) == |fenced| by {
      LineEndNone(fenced);
    }
    assert padded == " ```x```" && fenced == "```x```";
  }

  /** A closing fence written on the last code line takes that line with it. */
  lemma ClosingFenceOnCodeLine()
    ensures ParseCode("```\nx```") == ""
  {
    var rest := "x" + "```";
    var raw := "```" + "\n" + rest;
    assert raw[..3] == "```" && raw[|raw| - 3..] == "```";
    assert LineEnd(raw) == 3 by {
      LineEndAt("```", rest);
    }
    assert raw[4..] == rest;
    assert LineEnd(rest) == |rest| by {
      LineEndNone(rest);
    }
    assert SplitLines(raw) == ["```", rest];
    assert raw == "```\nx```";
  }

  lemma {:induction false} LineEndNone(s: string)
    requires forall k :: 0 <= k < |s| ==> s[k] != '\n'
    ensures LineEnd(s) == |s|
    decreases |s|
  {
    if s != [] {
      LineEndNone(s[1..]);
    }
  }

  /** One entry of `sample_results`. */
  datatype SampleResult = SampleResult(sampleIndex: nat, input: string, expectedOutput: string,
                                       actualOutput: string, error: string, passed: bool)

  /** The record of a sample whose code ran: outputs stripped, `passed` when
      the stripped output equals the expected output as given. */
  function Completed(i: nat, sample: Sample, stdout: string, stderr: string): SampleResult {
    SampleResult(i + 1, sample.input, sample.expectedOutput, Strip(stdout), Strip(stderr),
                 Strip(stdout) == sample.expectedOutput)
  }

  /** The record left by an exception while processing a sample. */
  function Failing(i: nat, sample: Sample, message: string): SampleResult {
    SampleResult(i + 1, sample.input, sample.expectedOutput, "", message, false)
  }

  /** `r` is a record for the sample at zero-based position `i`: it carries
      the 1-based index and the sample's own input and expected output, and
      it passes only with the expected output. */
  predicate Describes(r: SampleResult, i: nat, sample: Sample) {
    r.sampleIndex == i + 1 && r.input == sample.input && r.expectedOutput == sample.expectedOutput
    && (r.passed ==> r.actualOutput == r.expectedOutput)
  }

  /** A completed record describes its sample, passes exactly when the
      stripped output matches (the expected output is not stripped), and
      its output has no surrounding whitespace; a failing record never passes. */
  lemma RecordsDescribe(i: nat, sample: Sample, stdout: string, stderr: string, message: string)
    ensures Describes(Completed(i, sample, stdout, stderr), i, sample)
    ensures Completed(i, sample, stdout, stderr).passed <==> Strip(stdout) == sample.expectedOutput
    ensures var out := Completed(i, sample, stdout, stderr).actualOutput;
      out == [] || (!IsSpace(out[0]) && !IsSpace(out[|out| - 1]))
    ensures Describes(Failing(i, sample, message), i, sample) && !Failing(i, sample, message).passed
  {
    StripSpec(stdout);
  }

  /** An expected output with trailing whitespace can never pass, however
      exactly the program prints it. */
  lemma PaddedExpectationFails(i: nat, sample: Sample, stdout: string, stderr: string)
    requires sample.expectedOutput != [] && IsSpace(Last(sample.expectedOutput))
    ensures !Completed(i, sample, stdout, stderr).passed
  {
    StripSpec(stdout);
  }

  /** `test_summary`. */
  datatype TestSummary = TestSummary(sampleResults: seq<SampleResult>, totalSamples: nat,
                                     passedTests: nat, failedTests: nat)

  function CountPassed(rs: seq<SampleResult>): nat {
    if rs == [] then 0 else (if rs[0].passed then 1 else 0) + CountPassed(rs[1..])
  }

  function CountFailed(rs: seq<SampleResult>): nat {
    if rs == [] then 0 else (if rs[0].passed then 0 else 1) + CountFailed(rs[1..])
  }

  function Summarize(rs: seq<SampleResult>, total: nat): TestSummary {
    TestSummary(rs, total, CountPassed(rs), CountFailed(rs))
  }

  /** Passed and failed tests together count the records, not the samples. */
  lemma {:induction false} SummaryBalanced(rs: seq<SampleResult>, total: nat)
    ensures Summarize(rs, total).passedTests + Summarize(rs, total).failedTests == |rs|
    ensures Summarize(rs, total).totalSamples == total
    ensures Summarize(rs, total).passedTests == |rs| <==> forall k :: 0 <= k < |rs| ==> rs[k].passed
  {
    CountsBalance(rs);
  }

  lemma {:induction false} CountsBalance(rs: seq<SampleResult>)
    ensures CountPassed(rs) + CountFailed(rs) == |rs|
    ensures CountPassed(rs) == |rs| <==> forall k :: 0 <= k < |rs| ==> rs[k].passed
    decreases |rs|
  {
    if rs != [] {
      CountsBalance(rs[1..]);
      assert forall k :: 1 <= k < |rs| ==> rs[k] == rs[1..][k - 1];
    }
  }

  /** Two failing records for one sample make the summary count more tests
      than there are samples. */
  lemma RetriedSampleOvercounts(sample: Sample, message: string)
    ensures var s := Summarize([Failing(0, sample, message), Completed(0, sample, "", "")], 1);
      s.passedTests + s.failedTests == 2 && s.totalSamples == 1
  {
    CountsBalance([Failing(0, sample, message), Completed(0, sample, "", "")]);
  }

  /** The agents of the beta host, by the role they play. */
  datatype Role = Generator | Validator | Adapter | SampleValidator | Judge

  /** `conversation_log` entries, timestamps left out. Prompts are the host's
      messages; the rest are the reports the host logs about replies. */
  datatype Body =
    | GeneratePrompt(language: string, task: string)
    | GeneratorOutput(code: string)
    | ValidatePrompt(language: string, code: string)
    | ValidatorReply(text: string)
    | ValidationFailed
    | CodeSaved
    | AdaptPrompt(input: string, code: string)
    | AdapterReply(text: string)
    | SampleValidatePrompt(input: string, code: string)
    | SampleRejected(decision: string)
    | JudgePrompt(summary: TestSummary)
    | Verdict(decision: string, explanation: string)

  datatype Entry = Entry(iteration: int, body: Body)

  /** `b` is the host's prompt to the agent playing `role`. */
  predicate Addresses(b: Body, role: Role) {
    match role
    case Generator => b.GeneratePrompt?
    case Validator => b.ValidatePrompt?
    case Adapter => b.AdaptPrompt?
    case SampleValidator => b.SampleValidatePrompt?
    case Judge => b.JudgePrompt?
  }

  /** Every message in `inbox` was the whole log as it stood when sent, so a
      prefix of `log`, and ends with the host's prompt to `role`. */
  ghost predicate Replays(inbox: seq<seq<Entry>>, log: seq<Entry>, role: Role) {
    forall k :: 0 <= k < |inbox| ==> inbox[k] <= log && inbox[k] != [] && Addresses(Last(inbox[k]).body, role)
  }

  lemma ReplaysGrow(inbox: seq<seq<Entry>>, log: seq<Entry>, log': seq<Entry>, role: Role)
    requires Replays(inbox, log, role) && log <= log'
    ensures Replays(inbox, log', role)
  {
  }

  lemma ReplaysSend(inbox: seq<seq<Entry>>, log: seq<Entry>, role: Role)
    requires Replays(inbox, log, role) && log != [] && Addresses(Last(log).body, role)
    ensures Replays(inbox + [log], log, role)
  {
  }

  /** Every message in the generator's `inbox` ends with the request to
      write `task` in `language`. */
  ghost predicate Tasked(inbox: seq<seq<Entry>>, language: string, task: string) {
    forall k :: 0 <= k < |inbox| ==> inbox[k] != [] && Last(inbox[k]).body == GeneratePrompt(language, task)
  }

  lemma TaskedGrows(inbox: seq<seq<Entry>>, inbox': seq<seq<Entry>>, prompt: Entry, language: string, task: string)
    requires Tasked(inbox, language, task) && inbox <= inbox' && prompt.body == GeneratePrompt(language, task)
    requires forall k :: |inbox| <= k < |inbox'| ==> inbox'[k] != [] && Last(inbox'[k]) == prompt
    ensures Tasked(inbox', language, task)
  {
  }

  /** Each log in `starts` is a prefix of the next one, and the last of them
      a prefix of `log`: nothing written to the log is ever taken back. */
  ghost predicate Extended(starts: seq<seq<Entry>>, log: seq<Entry>) {
    && (forall k :: 0 < k < |starts| ==> starts[k - 1] <= starts[k])
    && (starts != [] ==> Last(starts) <= log)
  }

  lemma ExtendedNext(starts: seq<seq<Entry>>, log: seq<Entry>, log': seq<Entry>)
    requires Extended(starts, log) && log <= log'
    ensures Extended(starts + [log], log')
  {
  }

  /** Every log in a chain of extensions is a prefix of the last log. */
  lemma {:induction false} ExtendedPrefixes(starts: seq<seq<Entry>>, log: seq<Entry>)
    requires Extended(starts, log)
    ensures forall k :: 0 <= k < |starts| ==> starts[k] <= log
    decreases |starts|
  {
    if starts != [] {
      var n := |starts| - 1;
      var init := starts[..n];
      assert Extended(init, starts[n]) by {
        forall k | 0 < k < |init|
          ensures init[k - 1] <= init[k]
        {
          assert init[k - 1] == starts[k - 1] && init[k] == starts[k];
        }
        if init != [] {
          assert Last(init) == starts[n - 1];
        }
      }
      ExtendedPrefixes(init, starts[n]);
      forall k | 0 <= k < |starts|
        ensures starts[k] <= log
      {
        if k < n {
          assert init[k] <= starts[n] && starts[k] == init[k];
          PrefixTrans(starts[k], starts[n], log);
        }
      }
    }
  }

  /** Entries that neither record generated code nor a Judge verdict. */
  ghost predicate Quiet(added: seq<Entry>) {
    forall k :: 0 <= k < |added| ==> !added[k].body.GeneratorOutput? && !added[k].body.Verdict?
  }

  /** `after` extends `before` by quiet entries only. */
  ghost predicate Grew(before: seq<Entry>, after: seq<Entry>) {
    before <= after && Quiet(after[|before|..])
  }

  lemma GrewTrans(a: seq<Entry>, b: seq<Entry>, c: seq<Entry>)
    requires Grew(a, b) && Grew(b, c)
    ensures Grew(a, c)
  {
    assert c[|a|..] == b[|a|..] + c[|b|..];
  }

  /** Number of Judge verdicts logged. */
  function Verdicts(log: seq<Entry>): nat {
    if log == [] then 0 else Verdicts(log[..|log| - 1]) + (if Last(log).body.Verdict? then 1 else 0)
  }

  /** The code of the last generator entry, if any. */
  function LastGenerated(log: seq<Entry>): Option<string> {
    if log == [] then None
    else if Last(log).body.GeneratorOutput? then Some(Last(log).body.code)
    else LastGenerated(log[..|log| - 1])
  }

  /** Quiet entries change neither the verdict count nor the last generated code. */
  lemma {:induction false} GrewKeeps(before: seq<Entry>, after: seq<Entry>)
    requires Grew(before, after)
    ensures Verdicts(after) == Verdicts(before) && LastGenerated(after) == LastGenerated(before)
    decreases |after|
  {
    if |after| > |before| {
      var init := after[..|after| - 1];
      assert init[|before|..] == after[|before|..|after| - 1];
      assert Last(after) == after[|before|..][|after| - 1 - |before|];
      GrewKeeps(before, init);
    } else {
      assert after == before;
    }
  }

  /** Number of sample-validator rejections logged. */
  function Rejections(log: seq<Entry>): nat {
    if log == [] then 0 else Rejections(log[..|log| - 1]) + (if Last(log).body.SampleRejected? then 1 else 0)
  }

  lemma {:induction false} RejectionsAppend(a: seq<Entry>, b: seq<Entry>)
    ensures Rejections(a + b) == Rejections(a) + Rejections(b)
    decreases |b|
  {
    if b != [] {
      assert (a + b)[..|a + b| - 1] == a + b[..|b| - 1];
      RejectionsAppend(a, b[..|b| - 1]);
    } else {
      assert a + b == a;
    }
  }

  lemma {:induction false} RejectionsRepeat(e: Entry, n: nat)
    requires !e.body.SampleRejected?
    ensures Rejections(Repeat(e, n)) == 0
  {
    if n > 0 {
      RepeatSpec(e, n);
      assert Repeat(e, n)[..n - 1] == Repeat(e, n - 1);
      RejectionsRepeat(e, n - 1);
    }
  }

  /** Repeated prompts are quiet entries. */
  lemma GrewRepeat(log: seq<Entry>, e: Entry, n: nat)
    requires !e.body.GeneratorOutput? && !e.body.Verdict?
    ensures Grew(log, log + Repeat(e, n))
  {
    assert (log + Repeat(e, n))[|log|..] == Repeat(e, n);
  }

  /** Validator call `k` was sent a log ending with the prompt about `code`
      and was answered with a reply containing "yes". */
  ghost predicate ApprovedAt(inbox: seq<seq<Entry>>, answered: seq<Reply<string>>, language: string, code: string, k: int) {
    0 <= k < |inbox| && k < |answered| && inbox[k] != [] && Last(inbox[k]).body == ValidatePrompt(language, code)
    && answered[k].Ok? && Affirms(answered[k].value)
  }

  ghost predicate Approves(inbox: seq<seq<Entry>>, answered: seq<Reply<string>>, language: string, code: string) {
    exists k :: ApprovedAt(inbox, answered, language, code, k)
  }

  /** A last validator call about `code` answered with "yes" approves it. */
  lemma ApprovesLast(inbox: seq<seq<Entry>>, answered: seq<Reply<string>>, language: string, code: string)
    requires |inbox| == |answered| && inbox != [] && Last(inbox) != []
    requires Last(Last(inbox)).body == ValidatePrompt(language, code)
    requires Last(answered).Ok? && Affirms(Last(answered).value)
    ensures Approves(inbox, answered, language, code)
  {
    assert ApprovedAt(inbox, answered, language, code, |inbox| - 1);
  }

  lemma ApprovesGrows(inbox: seq<seq<Entry>>, answered: seq<Reply<string>>,
                      inbox': seq<seq<Entry>>, answered': seq<Reply<string>>, language: string, code: string)
    requires inbox <= inbox' && answered <= answered'
    requires Approves(inbox, answered, language, code)
    ensures Approves(inbox', answered', language, code)
  {
    var k :| ApprovedAt(inbox, answered, language, code, k);
    assert inbox'[k] == inbox[k] && answered'[k] == answered[k];
    assert ApprovedAt(inbox', answered', language, code, k);
  }

  /** `f` was written since `start`. */
  predicate Changed(start: map<string, string>, written: map<string, string>, f: string) {
    f in written && (f !in start || written[f] != start[f])
  }

  /** `f` holds what it held in `before`, if it existed. */
  predicate Untouched(before: map<string, string>, after: map<string, string>, f: string) {
    f in before ==> f in after && after[f] == before[f]
  }

  /** What the host may have written since `start` for `n` samples: only
      `task.<ext>` and the sample files, and `task.<ext>` only with approved code. */
  ghost predicate Filed(inbox: seq<seq<Entry>>, answered: seq<Reply<string>>, language: string,
                        start: map<string, string>, written: map<string, string>, n: nat) {
    var ext := Naming.Extension(language);
    && (forall f :: f !in Naming.Artifacts(ext, n) ==> (f in written <==> f in start) && (f in written ==> written[f] == start[f]))
    && (Changed(start, written, Naming.TaskFile(ext)) ==> Approves(inbox, answered, language, written[Naming.TaskFile(ext)]))
  }

  lemma FiledGrows(inbox: seq<seq<Entry>>, answered: seq<Reply<string>>,
                   inbox': seq<seq<Entry>>, answered': seq<Reply<string>>, language: string,
                   start: map<string, string>, written: map<string, string>, n: nat)
    requires inbox <= inbox' && answered <= answered'
    requires Filed(inbox, answered, language, start, written, n)
    ensures Filed(inbox', answered', language, start, written, n)
  {
    var task := Naming.TaskFile(Naming.Extension(language));
    if Changed(start, written, task) {
      ApprovesGrows(inbox, answered, inbox', answered', language, written[task]);
    }
  }

  /** Writing approved code to `task.<ext>` keeps what was written filed. */
  lemma FiledTask(inbox: seq<seq<Entry>>, answered: seq<Reply<string>>, language: string,
                  start: map<string, string>, written: map<string, string>, n: nat, code: string)
    requires Filed(inbox, answered, language, start, written, n)
    requires Approves(inbox, answered, language, code)
    ensures Filed(inbox, answered, language, start, written[Naming.TaskFile(Naming.Extension(language)) := code], n)
  {
  }

  /** Writing the file of sample `i` keeps what was written filed. */
  lemma FiledSample(inbox: seq<seq<Entry>>, answered: seq<Reply<string>>, language: string,
                    start: map<string, string>, written: map<string, string>, n: nat, i: nat, code: string)
    requires Filed(inbox, answered, language, start, written, n) && i < n
    ensures Filed(inbox, answered, language, start, written[Naming.SampleFile(Naming.Extension(language), i) := code], n)
  {
    var ext := Naming.Extension(language);
    Naming.SampleFilesDistinct(ext, i, i);
    assert Naming.SampleFile(ext, i) in Naming.Artifacts(ext, n);
  }

  /** What running a sample file gives: its output streams, or the exception
      raised while running it. */
  datatype Execution = Ran(stdout: string, stderr: string) | Raised(message: string)

  /** What a run of a file gives, as the record of the sample at zero-based
      position `i`. */
  function RunRecord(run: Execution, i: nat, sample: Sample): SampleResult {
    match run
    case Ran(stdout, stderr) => Completed(i, sample, stdout, stderr)
    case Raised(message) => Failing(i, sample, message)
  }

  /** The last record is what running the file `name` of sample `i` gave. */
  ghost predicate Recorded(execute: (string, string) -> Execution, written: map<string, string>,
                           results: seq<SampleResult>, i: nat, sample: Sample, name: string) {
    name in written && results != [] && Last(results) == RunRecord(execute(name, written[name]), i, sample)
  }

  /** `code` is what the last reply in the adapter's history parses to. */
  ghost predicate Adapted(answered: seq<Reply<string>>, code: string) {
    answered != [] && Last(answered).Ok? && code == ParseCode(Strip(Last(answered).value))
  }

  /** Every record at a position from `from` to before `to` reports an
      exception raised while processing sample `i`. */
  ghost predicate Retried(results: seq<SampleResult>, from: nat, to: nat, i: nat, sample: Sample) {
    forall k :: from <= k < to && k < |results| ==> results[k] == Failing(i, sample, results[k].error)
  }

  /** A new record keeps the earlier failures, and one more failure of
      sample `i` extends them. */
  lemma RetriedNext(results: seq<SampleResult>, r: SampleResult, from: nat, i: nat, sample: Sample)
    requires Retried(results, from, |results|, i, sample)
    ensures Retried(results + [r], from, |results|, i, sample)
    ensures r == Failing(i, sample, r.error) ==> Retried(results + [r], from, |results| + 1, i, sample)
  {
    var results' := results + [r];
    forall k | from <= k < |results|
      ensures results'[k] == Failing(i, sample, results'[k].error)
    {
      assert results'[k] == results[k];
    }
  }

  /** Every record describes one of `samples`, by its 1-based index. */
  ghost predicate Covers(results: seq<SampleResult>, samples: seq<Sample>) {
    forall k :: 0 <= k < |results| ==>
      1 <= results[k].sampleIndex <= |samples| && Describes(results[k], results[k].sampleIndex - 1, samples[results[k].sampleIndex - 1])
  }

  /** Every record is about one of the first `n` samples. */
  ghost predicate Within(results: seq<SampleResult>, n: nat) {
    forall k :: 0 <= k < |results| ==> results[k].sampleIndex <= n
  }

  /** Every record reports an exception for its sample, or is what running
      that sample's file, as it is now, gives. */
  ghost predicate Genuine(execute: (string, string) -> Execution, written: map<string, string>, ext: string,
                          results: seq<SampleResult>, samples: seq<Sample>) {
    forall k :: 0 <= k < |results| && 1 <= results[k].sampleIndex <= |samples| ==>
      var j := results[k].sampleIndex - 1;
      var name := Naming.SampleFile(ext, j);
      || results[k] == Failing(j, samples[j], results[k].error)
      || (name in written && results[k] == RunRecord(execute(name, written[name]), j, samples[j]))
  }

  /** Sample `j` was tested: its file holds what an adapter reply parses
      to, and one of the records is what running that file gives. */
  ghost predicate Tested(execute: (string, string) -> Execution, written: map<string, string>, adapted: seq<Reply<string>>,
                         ext: string, results: seq<SampleResult>, j: nat, sample: Sample) {
    var name := Naming.SampleFile(ext, j);
    && name in written
    && (exists m :: 0 <= m < |adapted| && adapted[m].Ok? && written[name] == ParseCode(Strip(adapted[m].value)))
    && (exists k :: 0 <= k < |results| && results[k] == RunRecord(execute(name, written[name]), j, sample))
  }

  /** The first `n` samples were all tested. */
  ghost predicate AllTested(execute: (string, string) -> Execution, written: map<string, string>, adapted: seq<Reply<string>>,
                            ext: string, results: seq<SampleResult>, samples: seq<Sample>, n: nat) {
    n <= |samples| && forall j: nat :: j < n ==> Tested(execute, written, adapted, ext, results, j, samples[j])
  }

  /** The first `n` samples are run: every record describes one of them,
      every record is genuine, and each of them was tested. */
  ghost predicate SamplesUpTo(execute: (string, string) -> Execution, written: map<string, string>, adapted: seq<Reply<string>>,
                              ext: string, results: seq<SampleResult>, samples: seq<Sample>, n: nat) {
    && Covers(results, samples) && Within(results, n)
    && Genuine(execute, written, ext, results, samples)
    && AllTested(execute, written, adapted, ext, results, samples, n)
  }

  /** What the sample loop leaves for the Judge: every record describes its
      sample and is a failure report or the run of that sample's file, and
      every sample was tested. */
  ghost predicate SamplesRun(execute: (string, string) -> Execution, written: map<string, string>, adapted: seq<Reply<string>>,
                             ext: string, results: seq<SampleResult>, samples: seq<Sample>) {
    SamplesUpTo(execute, written, adapted, ext, results, samples, |samples|)
  }

  /** Sample `i` was processed: `after` adds failures of it and then the
      run of its file `name`; only that file was written, and it holds the
      last adapter reply parsed. */
  ghost predicate SampleTried(execute: (string, string) -> Execution, written: map<string, string>, written': map<string, string>,
                              adapted: seq<Reply<string>>, adapted': seq<Reply<string>>,
                              before: seq<SampleResult>, after: seq<SampleResult>, i: nat, sample: Sample, name: string) {
    && before < after && Retried(after, |before|, |after| - 1, i, sample)
    && Recorded(execute, written', after, i, sample, name)
    && written' == written[name := written'[name]]
    && adapted <= adapted' && Adapted(adapted', written'[name])
  }

  /** Processing sample `i` extends the run of the first `i` samples to
      the first `i + 1`. */
  lemma SamplesNext(execute: (string, string) -> Execution, written: map<string, string>, written': map<string, string>,
                    adapted: seq<Reply<string>>, adapted': seq<Reply<string>>,
                    ext: string, before: seq<SampleResult>, after: seq<SampleResult>, samples: seq<Sample>, i: nat)
    requires i < |samples| && SamplesUpTo(execute, written, adapted, ext, before, samples, i)
    requires SampleTried(execute, written, written', adapted, adapted', before, after, i, samples[i], Naming.SampleFile(ext, i))
    ensures SamplesUpTo(execute, written', adapted', ext, after, samples, i + 1)
  {
    var name := Naming.SampleFile(ext, i);
    CoversNext(execute, written', name, before, after, samples, i);
    GenuineNext(execute, written, written', ext, before, after, samples, i);
    TestedNext(execute, written, written', adapted, adapted', ext, before, after, samples, i);
  }

  /** The messages `n` attempts send: before attempt `m` the prompt has
      been logged `m` times, and the whole log is sent. */
  function Sent(log: seq<Entry>, prompt: Entry, n: nat): seq<seq<Entry>> {
    if n == 0 then [] else Sent(log, prompt, n - 1) + [log + Repeat(prompt, n)]
  }

  /** Each message sent is a prefix of the log after the attempts, and ends
      with the prompt. */
  lemma {:induction false} SentPrefixes(log: seq<Entry>, prompt: Entry, n: nat, m: nat)
    requires n <= m
    ensures |Sent(log, prompt, n)| == n
    ensures forall k :: 0 <= k < n ==>
      Sent(log, prompt, n)[k] <= log + Repeat(prompt, m) && Sent(log, prompt, n)[k] != []
      && Last(Sent(log, prompt, n)[k]) == prompt
  {
    if n > 0 {
      SentPrefixes(log, prompt, n - 1, m);
      var msg := log + Repeat(prompt, n);
      RepeatPrefix(prompt, n, m);
      assert msg <= log + Repeat(prompt, m);
      assert Repeat(prompt, n) == Repeat(prompt, n - 1) + [prompt];
      assert Last(msg) == prompt;
    }
  }

  lemma {:induction false} RepeatPrefix(e: Entry, n: nat, m: nat)
    requires n <= m
    ensures Repeat(e, n) <= Repeat(e, m)
    decreases m
  {
    if n < m {
      RepeatPrefix(e, n, m - 1);
    }
  }

  /** A retry loop of the beta host on the log `log`: the prompt is
      appended before every attempt and the whole log is sent; a rate-limit
      error repeats the attempt. The answer is what `Retry` predicts, and the
      log gains one prompt per attempt. */
  method Replay(agent: Agent<seq<Entry>, Reply<string>>, log: seq<Entry>, prompt: Entry)
    returns (a: Answer<string>, log': seq<Entry>)
    requires agent.Valid()
    modifies agent
    ensures agent.Valid()
    ensures a == Retry(old(agent.script)).answer
    ensures var n := Retry(old(agent.script)).consumed;
      && agent.script == old(agent.script)[n..]
      && agent.answered == old(agent.answered) + old(agent.script)[..n]
      && agent.inbox == old(agent.inbox) + Sent(log, prompt, n)
      && log' == log + Repeat(prompt, if a.Stalled? then n + 1 else n)
  {
    ghost var n := 0;
    log' := log;
    while true
      invariant agent.Valid()
      invariant n <= |old(agent.script)| && agent.script == old(agent.script)[n..]
      invariant agent.answered == old(agent.answered) + old(agent.script)[..n]
      invariant agent.inbox == old(agent.inbox) + Sent(log, prompt, n)
      invariant log' == log + Repeat(prompt, n)
      invariant Retry(old(agent.script)) == Attempts(n + Retry(agent.script).consumed, Retry(agent.script).answer)
      decreases |agent.script|
    {
      ghost var before := agent.script;
      SnocAssoc(log, Repeat(prompt, n), prompt);
      log' := log' + [prompt];
      var r := agent.Send(log');
      if r.None? {
        assert Retry(old(agent.script)) == Attempts(n, Stalled);
        return Stalled, log';
      }
      assert old(agent.script)[..n + 1] == old(agent.script)[..n] + [before[0]];
      SnocAssoc(old(agent.answered), old(agent.script)[..n], before[0]);
      SnocAssoc(old(agent.inbox), Sent(log, prompt, n), log');
      n := n + 1;
      var reply := r.value;
      if reply.Err? && Contains(reply.message, "429") {
        assert before[1..] == agent.script;
        continue;
      }
      a := if reply.Ok? then Answered(reply.value) else Faulted;
      assert Retry(old(agent.script)) == Attempts(n, a);
      return a, log';
    }
  }

  /** What the messages of `n` attempts do to an agent's history: it is
      still replayed from the grown log, which grew by quiet prompts only,
      every new message ends with the prompt, and after a reply the last
      message is the whole log. */
  lemma SentEffect(prompt: Entry, role: Role, inbox0: seq<seq<Entry>>, log0: seq<Entry>, n: nat, extra: nat,
                   inbox: seq<seq<Entry>>, log: seq<Entry>)
    requires Replays(inbox0, log0, role) && Addresses(prompt.body, role) && extra <= 1
    requires inbox == inbox0 + Sent(log0, prompt, n) && log == log0 + Repeat(prompt, n + extra)
    ensures Replays(inbox, log, role) && Grew(log0, log) && inbox0 <= inbox
    ensures forall k :: |inbox0| <= k < |inbox| ==> inbox[k] != [] && Last(inbox[k]) == prompt
    ensures n > 0 && extra == 0 ==> inbox != [] && Last(inbox) == log && log != [] && Last(log) == prompt
  {
    SentPrefixes(log0, prompt, n, n + extra);
    GrewRepeat(log0, prompt, n + extra);
    forall k | 0 <= k < |inbox|
      ensures inbox[k] <= log && inbox[k] != [] && Addresses(Last(inbox[k]).body, role)
      ensures k >= |inbox0| ==> Last(inbox[k]) == prompt
    {
      if k >= |inbox0| {
        assert inbox[k] == Sent(log0, prompt, n)[k - |inbox0|];
      }
    }
    if n > 0 && extra == 0 {
      assert Last(inbox) == Sent(log0, prompt, n)[n - 1];
    }
  }

  /** What a retry loop of the beta host leaves behind, from the agent's
      script, inbox and replies and the log before (`0`) and after: the answer
      `Retry` predicts, the replies it consumed moved from the script to the
      history, the log grown by quiet prompts (one per attempt when
      a reply came), every new message ending with the prompt, the last one
      the whole log when a reply came, and the last reply explaining the answer. */
  ghost predicate Answers(a: Answer<string>, prompt: Entry,
                          script0: seq<Reply<string>>, inbox0: seq<seq<Entry>>, answered0: seq<Reply<string>>, log0: seq<Entry>,
                          script: seq<Reply<string>>, inbox: seq<seq<Entry>>, answered: seq<Reply<string>>, log: seq<Entry>) {
    && a == Retry(script0).answer
    && script == script0[Retry(script0).consumed..] && answered == answered0 + script0[..Retry(script0).consumed]
    && Grew(log0, log)
    && inbox0 <= inbox && answered0 <= answered
    && (forall k :: |inbox0| <= k < |inbox| ==> inbox[k] != [] && Last(inbox[k]) == prompt)
    && (a.Stalled? ==> script == [])
    && (!a.Stalled? ==> |script| < |script0| && log == log0 + Repeat(prompt, Retry(script0).consumed))
    && (a.Faulted? ==> answered != [] && Last(answered).Err? && !IsRateLimited(Last(answered)))
    && (a.Answered? ==> inbox != [] && Last(inbox) == log && log != [] && Last(log) == prompt
                        && answered != [] && Last(answered) == Ok(a.value))
  }

  /** The equations `Replay` ensures give `Answers`, and keep the agent's
      history replayed. */
  lemma ReplayEffect(a: Answer<string>, prompt: Entry, role: Role,
                     script0: seq<Reply<string>>, inbox0: seq<seq<Entry>>, answered0: seq<Reply<string>>, log0: seq<Entry>,
                     script: seq<Reply<string>>, inbox: seq<seq<Entry>>, answered: seq<Reply<string>>, log: seq<Entry>)
    requires Replays(inbox0, log0, role) && Addresses(prompt.body, role)
    requires a == Retry(script0).answer
    requires var n := Retry(script0).consumed;
      && script == script0[n..] && answered == answered0 + script0[..n]
      && inbox == inbox0 + Sent(log0, prompt, n)
      && log == log0 + Repeat(prompt, if a.Stalled? then n + 1 else n)
    ensures Answers(a, prompt, script0, inbox0, answered0, log0, script, inbox, answered, log)
    ensures Replays(inbox, log, role) && log0 <= log
  {
    var n := Retry(script0).consumed;
    SentEffect(prompt, role, inbox0, log0, n, if a.Stalled? then 1 else 0, inbox, log);
    if n > 0 {
      assert Last(answered) == script0[n - 1];
    }
  }

  /** The Judge loop of the beta host on the log `log`: the prompt is
      appended before every attempt and the whole log is sent; a rate-limit
      error or an undecodable reply repeats the attempt, and an unreadable
      reply or any other error ends the run. The answer is what
      `Judgment` predicts, and the log gains one prompt per attempt. */
  method ReplayJudge(agent: Agent<seq<Entry>, Reply<Verdict>>, log: seq<Entry>, prompt: Entry)
    returns (a: Answer<(string, string)>, log': seq<Entry>)
    requires agent.Valid()
    modifies agent
    ensures agent.Valid()
    ensures a == Judgment(old(agent.script)).answer
    ensures var n := Judgment(old(agent.script)).consumed;
      && agent.script == old(agent.script)[n..]
      && agent.answered == old(agent.answered) + old(agent.script)[..n]
      && agent.inbox == old(agent.inbox) + Sent(log, prompt, n)
      && log' == log + Repeat(prompt, if a.Stalled? then n + 1 else n)
  {
    ghost var n := 0;
    log' := log;
    while true
      invariant agent.Valid()
      invariant n <= |old(agent.script)| && agent.script == old(agent.script)[n..]
      invariant agent.answered == old(agent.answered) + old(agent.script)[..n]
      invariant agent.inbox == old(agent.inbox) + Sent(log, prompt, n)
      invariant log' == log + Repeat(prompt, n)
      invariant Judgment(old(agent.script)) == Attempts(n + Judgment(agent.script).consumed, Judgment(agent.script).answer)
      decreases |agent.script|
    {
      ghost var before := agent.script;
      SnocAssoc(log, Repeat(prompt, n), prompt);
      log' := log' + [prompt];
      var r := agent.Send(log');
      if r.None? {
        return Stalled, log';
      }
      assert old(agent.script)[..n + 1] == old(agent.script)[..n] + [before[0]];
      SnocAssoc(old(agent.answered), old(agent.script)[..n], before[0]);
      SnocAssoc(old(agent.inbox), Sent(log, prompt, n), log');
      n := n + 1;
      var reply := r.value;
      if (reply.Err? && Contains(reply.message, "429")) || reply == Ok(DecodeError) {
        assert before[1..] == agent.script;
        continue;
      }
      return if reply.Ok? && reply.value.Parsed? then Answered(Reading(reply.value)) else Faulted, log';
    }
  }

  /** What the Judge loop leaves behind: the answer `Judgment` predicts, the
      replies it consumed added to the history, the log grown by quiet
      prompts, and the last reply explaining the answer; a decision read
      from a reply answers the whole log, which ends with the prompt. */
  ghost predicate Judged(a: Answer<(string, string)>, prompt: Entry,
                         script0: seq<Reply<Verdict>>, inbox0: seq<seq<Entry>>, answered0: seq<Reply<Verdict>>, log0: seq<Entry>,
                         script: seq<Reply<Verdict>>, inbox: seq<seq<Entry>>, answered: seq<Reply<Verdict>>, log: seq<Entry>) {
    && a == Judgment(script0).answer
    && answered == answered0 + script0[..Judgment(script0).consumed]
    && Grew(log0, log) && inbox0 <= inbox
    && (a.Stalled? ==> script == [])
    && (!a.Stalled? ==> |script| < |script0|)
    && (a.Faulted? ==> answered != [] && Fatal(Last(answered)))
    && (a.Answered? ==> inbox != [] && Last(inbox) == log && log != [] && Last(log) == prompt
                        && answered != [] && Last(answered).Ok? && Last(answered).value.Parsed?
                        && a.value == Reading(Last(answered).value))
  }

  /** The equations `ReplayJudge` ensures give `Judged`. */
  lemma JudgeEffect(a: Answer<(string, string)>, prompt: Entry,
                    script0: seq<Reply<Verdict>>, inbox0: seq<seq<Entry>>, answered0: seq<Reply<Verdict>>, log0: seq<Entry>,
                    script: seq<Reply<Verdict>>, inbox: seq<seq<Entry>>, answered: seq<Reply<Verdict>>, log: seq<Entry>)
    requires Replays(inbox0, log0, Judge) && prompt.body.JudgePrompt?
    requires a == Judgment(script0).answer
    requires var n := Judgment(script0).consumed;
      && script == script0[n..] && answered == answered0 + script0[..n]
      && inbox == inbox0 + Sent(log0, prompt, n)
      && log == log0 + Repeat(prompt, if a.Stalled? then n + 1 else n)
    ensures Judged(a, prompt, script0, inbox0, answered0, log0, script, inbox, answered, log)
    ensures Replays(inbox, log, Judge) && log0 <= log
  {
    var n := Judgment(script0).consumed;
    SentEffect(prompt, Judge, inbox0, log0, n, if a.Stalled? then 1 else 0, inbox, log);
    if n > 0 {
      assert Last(answered) == script0[n - 1];
    }
  }

  /** Appending one entry: the counts and the last generated code move by
      that entry alone. */
  lemma Snoc(log: seq<Entry>, e: Entry)
    ensures Verdicts(log + [e]) == Verdicts(log) + (if e.body.Verdict? then 1 else 0)
    ensures Rejections(log + [e]) == Rejections(log) + (if e.body.SampleRejected? then 1 else 0)
    ensures LastGenerated(log + [e]) == if e.body.GeneratorOutput? then Some(e.body.code) else LastGenerated(log)
    ensures !e.body.GeneratorOutput? && !e.body.Verdict? ==> Grew(log, log + [e])
  {
    assert (log + [e])[..|log|] == log;
    assert (log + [e])[|log|..] == [e];
  }

  /** Writing a file twice leaves what the second write put there. */
  lemma Overwrite(m: map<string, string>, k: string, v: string, w: string)
    ensures m[k := v][k := w] == m[k := w]
  {
  }

  /** Consuming `c` more replies after the first `n`. */
  lemma Advance<T>(script: seq<T>, history: seq<T>, n: nat, c: nat)
    requires n + c <= |script|
    ensures script[n..][c..] == script[n + c..]
    ensures history + script[..n] + script[n..][..c] == history + script[..n + c]
  {
    assert script[..n + c] == script[..n] + script[n..][..c];
  }

  /** Prompts log no rejection. */
  lemma RejectionsCall(log: seq<Entry>, prompt: Entry, n: nat)
    requires !prompt.body.SampleRejected?
    ensures Rejections(log + Repeat(prompt, n)) == Rejections(log)
  {
    RejectionsAppend(log, Repeat(prompt, n));
    RejectionsRepeat(prompt, n);
  }

  /** Records about sample `i` extend a cover of the first `i` samples to
      the first `i + 1`. */
  lemma CoversNext(execute: (string, string) -> Execution, written: map<string, string>, name: string,
                   before: seq<SampleResult>, after: seq<SampleResult>, samples: seq<Sample>, i: nat)
    requires i < |samples| && Covers(before, samples) && Within(before, i)
    requires before < after
    requires Retried(after, |before|, |after| - 1, i, samples[i])
    requires Recorded(execute, written, after, i, samples[i], name)
    ensures Covers(after, samples) && Within(after, i + 1)
  {
    forall k | 0 <= k < |after|
      ensures 1 <= after[k].sampleIndex <= |samples| && after[k].sampleIndex <= i + 1
      ensures Describes(after[k], after[k].sampleIndex - 1, samples[after[k].sampleIndex - 1])
    {
      if k < |before| {
        assert after[k] == before[k];
      } else if k < |after| - 1 {
        RecordsDescribe(i, samples[i], "", "", after[k].error);
      } else {
        assert after[k] == Last(after);
        match execute(name, written[name])
        case Ran(stdout, stderr) => RecordsDescribe(i, samples[i], stdout, stderr, "");
        case Raised(message) => RecordsDescribe(i, samples[i], "", "", message);
      }
    }
  }

  /** Records about sample `i`, failures but for the last, which is the run
      of its file, keep every record accounted for when only that file was
      written. */
  lemma GenuineNext(execute: (string, string) -> Execution, written: map<string, string>, written': map<string, string>,
                    ext: string, before: seq<SampleResult>, after: seq<SampleResult>, samples: seq<Sample>, i: nat)
    requires i < |samples| && Within(before, i) && Genuine(execute, written, ext, before, samples)
    requires before < after
    requires var name := Naming.SampleFile(ext, i);
      name in written' && written' == written[name := written'[name]]
    requires Retried(after, |before|, |after| - 1, i, samples[i])
    requires Recorded(execute, written', after, i, samples[i], Naming.SampleFile(ext, i))
    ensures Genuine(execute, written', ext, after, samples)
  {
    forall k | 0 <= k < |after| && 1 <= after[k].sampleIndex <= |samples|
      ensures var j := after[k].sampleIndex - 1;
        var name := Naming.SampleFile(ext, j);
        || after[k] == Failing(j, samples[j], after[k].error)
        || (name in written' && after[k] == RunRecord(execute(name, written'[name]), j, samples[j]))
    {
      if k < |before| {
        assert after[k] == before[k];
        var j := before[k].sampleIndex - 1;
        if j != i {
          Naming.SampleFilesDistinct(ext, i, j);
        }
      } else if k < |after| - 1 {
      } else {
        assert after[k] == Last(after);
        assert after[k].sampleIndex == i + 1 by {
          match execute(Naming.SampleFile(ext, i), written'[Naming.SampleFile(ext, i)])
          case Ran(_, _) =>
          case Raised(_) =>
        }
      }
    }
  }

  /** Sample `i`, whose file now holds an adapter reply and whose last
      record is the run of that file, joins the tested samples; the earlier
      ones stay tested, their files untouched. */
  lemma TestedNext(execute: (string, string) -> Execution, written: map<string, string>, written': map<string, string>,
                   adapted: seq<Reply<string>>, adapted': seq<Reply<string>>,
                   ext: string, before: seq<SampleResult>, after: seq<SampleResult>, samples: seq<Sample>, i: nat)
    requires i < |samples| && AllTested(execute, written, adapted, ext, before, samples, i)
    requires before <= after && adapted <= adapted'
    requires var name := Naming.SampleFile(ext, i);
      name in written' && written' == written[name := written'[name]]
    requires Recorded(execute, written', after, i, samples[i], Naming.SampleFile(ext, i))
    requires Adapted(adapted', written'[Naming.SampleFile(ext, i)])
    ensures AllTested(execute, written', adapted', ext, after, samples, i + 1)
  {
    forall j: nat | j < i + 1
      ensures Tested(execute, written', adapted', ext, after, j, samples[j])
    {
      var name := Naming.SampleFile(ext, j);
      if j < i {
        assert Tested(execute, written, adapted, ext, before, j, samples[j]);
        Naming.SampleFilesDistinct(ext, i, j);
        assert written'[name] == written[name];
        var m :| 0 <= m < |adapted| && adapted[m].Ok? && written[name] == ParseCode(Strip(adapted[m].value));
        assert adapted'[m] == adapted[m];
        var k :| 0 <= k < |before| && before[k] == RunRecord(execute(name, written[name]), j, samples[j]);
        assert after[k] == before[k];
      } else {
        assert adapted'[|adapted'| - 1] == Last(adapted');
        assert after[|after| - 1] == Last(after);
      }
    }
  }

  /** The last call `answered` and `inbox` record was about `code` for the
      sample input `input`, and was answered with a reply containing "yes". */
  ghost predicate Vouched(inbox: seq<seq<Entry>>, answered: seq<Reply<string>>, input: string, code: string) {
    && answered != [] && Last(answered).Ok? && Affirms(Last(answered).value)
    && inbox != [] && Last(inbox) != [] && Last(Last(inbox)).body == SampleValidatePrompt(input, code)
  }

  /** How one pass of the loop ends: with a rejection by the validator, with
      a Judge "no", or by returning from `host`. */
  datatype Step = Rejected | Declined | Return(outcome: Outcome)

  /** One call of `host`: the log, the written files, the sample records,
      the five agents and the way sample files run. */
  class Run {
    var iteration: int
    var log: seq<Entry>
    var files: map<string, string>
    var sampleResults: seq<SampleResult>
    const generator: Agent<seq<Entry>, Reply<string>>
    const validator: Agent<seq<Entry>, Reply<string>>
    const adapter: Agent<seq<Entry>, Reply<string>>
    const sampleValidator: Agent<seq<Entry>, Reply<string>>
    const judge: Agent<seq<Entry>, Reply<Verdict>>
    const execute: (string, string) -> Execution

    ghost predicate Valid()
      reads generator, validator, adapter, sampleValidator, judge
    {
      && generator != validator && generator != adapter && generator != sampleValidator
      && validator != adapter && validator != sampleValidator && adapter != sampleValidator
      && generator.Valid() && validator.Valid() && adapter.Valid() && sampleValidator.Valid() && judge.Valid()
    }

    constructor (generator: Agent<seq<Entry>, Reply<string>>, validator: Agent<seq<Entry>, Reply<string>>,
                 adapter: Agent<seq<Entry>, Reply<string>>, sampleValidator: Agent<seq<Entry>, Reply<string>>,
                 judge: Agent<seq<Entry>, Reply<Verdict>>, execute: (string, string) -> Execution,
                 files: map<string, string>)
      requires generator != validator && generator != adapter && generator != sampleValidator
      requires validator != adapter && validator != sampleValidator && adapter != sampleValidator
      requires generator.Valid() && validator.Valid() && adapter.Valid() && sampleValidator.Valid() && judge.Valid()
      ensures Valid() && this.files == files && log == [] && iteration == 1 && sampleResults == []
      ensures this.generator == generator && this.validator == validator && this.adapter == adapter
      ensures this.sampleValidator == sampleValidator && this.judge == judge && this.execute == execute
    {
      this.generator := generator;
      this.validator := validator;
      this.adapter := adapter;
      this.sampleValidator := sampleValidator;
      this.judge := judge;
      this.execute := execute;
      this.files := files;
      log := [];
      iteration := 1;
      sampleResults := [];
    }

    /** The text agent playing `role`. */
    function Speaker(role: Role): Agent<seq<Entry>, Reply<string>>
      requires role != Judge
    {
      match role
      case Generator => generator
      case Validator => validator
      case Adapter => adapter
      case SampleValidator => sampleValidator
    }

    /** Every agent has only ever been sent the whole log as it stood, ending
        with the host's prompt to it. */
    ghost predicate Replaying()
      reads this, generator, validator, adapter, sampleValidator, judge
    {
      && Replays(generator.inbox, log, Generator) && Replays(validator.inbox, log, Validator)
      && Replays(adapter.inbox, log, Adapter) && Replays(sampleValidator.inbox, log, SampleValidator)
      && Replays(judge.inbox, log, Judge)
    }

    /** Total replies the scripted agents still hold. */
    ghost function Remaining(): nat
      reads generator, validator, adapter, sampleValidator, judge
    {
      |generator.script| + |validator.script| + |adapter.script| + |sampleValidator.script| + |judge.script|
    }

    /** `conversation_log.append(e)`. */
    method Append(e: Entry)
      requires Replaying()
      modifies this
      ensures log == old(log) + [e] && Replaying()
      ensures iteration == old(iteration) && files == old(files) && sampleResults == old(sampleResults)
      ensures Verdicts(log) == Verdicts(old(log)) + (if e.body.Verdict? then 1 else 0)
      ensures Rejections(log) == Rejections(old(log)) + (if e.body.SampleRejected? then 1 else 0)
      ensures LastGenerated(log) == if e.body.GeneratorOutput? then Some(e.body.code) else LastGenerated(old(log))
      ensures !e.body.GeneratorOutput? && !e.body.Verdict? ==> Grew(old(log), log)
    {
      Snoc(log, e);
      log := log + [e];
      ReplaysGrow(generator.inbox, old(log), log, Generator);
      ReplaysGrow(validator.inbox, old(log), log, Validator);
      ReplaysGrow(adapter.inbox, old(log), log, Adapter);
      ReplaysGrow(sampleValidator.inbox, old(log), log, SampleValidator);
      ReplaysGrow(judge.inbox, old(log), log, Judge);
    }

    /** A retry loop of the beta host, as `Replay` runs it on the log. */
    method Call(role: Role, prompt: Entry) returns (a: Answer<string>)
      requires role != Judge && Addresses(prompt.body, role)
      requires Valid() && Replaying()
      modifies this, Speaker(role)
      ensures Valid() && Replaying()
      ensures iteration == old(iteration) && files == old(files) && sampleResults == old(sampleResults)
      ensures Answers(a, prompt, old(Speaker(role).script), old(Speaker(role).inbox), old(Speaker(role).answered), old(log),
                      Speaker(role).script, Speaker(role).inbox, Speaker(role).answered, log)
    {
      var agent := Speaker(role);
      ghost var inbox, answered, script := agent.inbox, agent.answered, agent.script;
      var l;
      a, l := Replay(agent, log, prompt);
      log := l;
      ReplayEffect(a, prompt, role, script, inbox, answered, old(log), agent.script, agent.inbox, agent.answered, log);
      if role != Generator { ReplaysGrow(generator.inbox, old(log), log, Generator); }
      if role != Validator { ReplaysGrow(validator.inbox, old(log), log, Validator); }
      if role != Adapter { ReplaysGrow(adapter.inbox, old(log), log, Adapter); }
      if role != SampleValidator { ReplaysGrow(sampleValidator.inbox, old(log), log, SampleValidator); }
      ReplaysGrow(judge.inbox, old(log), log, Judge);
    }

    /** The Judge loop, as `ReplayJudge` runs it on the log. */
    method Consult(prompt: Entry) returns (a: Answer<(string, string)>)
      requires prompt.body.JudgePrompt? && Valid() && Replaying()
      modifies this, judge
      ensures Valid() && Replaying()
      ensures iteration == old(iteration) && files == old(files) && sampleResults == old(sampleResults)
      ensures Judged(a, prompt, old(judge.script), old(judge.inbox), old(judge.answered), old(log), judge.script, judge.inbox, judge.answered, log)
      // the history gains an accepting reply exactly when the answer accepts, and then only the last one
      ensures Unaccepted(judge.answered) <==> Unaccepted(old(judge.answered)) && !(a.Answered? && Accepts(a.value.0))
      ensures Unaccepted(old(judge.answered)) && a.Answered? && Accepts(a.value.0) ==> AcceptedLast(judge.answered)
    {
      ghost var inbox, answered, script := judge.inbox, judge.answered, judge.script;
      var l;
      a, l := ReplayJudge(judge, log, prompt);
      log := l;
      JudgeEffect(a, prompt, script, inbox, answered, old(log), judge.script, judge.inbox, judge.answered, log);
      JudgedAccepting(script, answered, judge.answered);
      ReplaysGrow(generator.inbox, old(log), log, Generator);
      ReplaysGrow(validator.inbox, old(log), log, Validator);
      ReplaysGrow(adapter.inbox, old(log), log, Adapter);
      ReplaysGrow(sampleValidator.inbox, old(log), log, SampleValidator);
    }

    /** One round of the inner loop of a sample: the sample validator is
        asked about `modified` under the retry policy. A reply without "yes"
        is logged as a rejection and costs one from the counter; the rest of
        the loop is then what `Screening` predicts from the replies after it. */
    method Round(sample: Sample, modified: string, counter: nat) returns (left: nat, exit: Option<Outcome>, approved: bool)
      requires Valid() && Replaying() && counter > 0
      modifies this, sampleValidator
      ensures Valid() && Replaying()
      ensures iteration == old(iteration) && files == old(files) && sampleResults == old(sampleResults)
      ensures Grew(old(log), log) && old(sampleValidator.inbox) <= sampleValidator.inbox
      ensures var c := Retry(old(sampleValidator.script)).consumed;
        && sampleValidator.script == old(sampleValidator.script)[c..]
        && sampleValidator.answered == old(sampleValidator.answered) + old(sampleValidator.script)[..c]
        && (exit.Some? || approved ==> Screening(old(sampleValidator.script), counter) == Screen(c, counter, exit))
        && (exit.None? && !approved ==>
             var rest := Screening(sampleValidator.script, counter - 1);
             Screening(old(sampleValidator.script), counter) == Screen(c + rest.consumed, rest.left, rest.exit))
      ensures left == if exit.None? && !approved then counter - 1 else counter
      ensures exit == Some(Stuck) ==> sampleValidator.script == []
      ensures exit.Some? && exit != Some(Stuck) ==> exit == Some(Finished("no", "", Fault("2"))) && EndedInFault(sampleValidator)
      ensures exit.None? ==> Rejections(log) == Rejections(old(log)) + (counter - left)
      ensures approved ==> exit.None? && Vouched(sampleValidator.inbox, sampleValidator.answered, sample.input, modified)
    {
      var prompt := Entry(iteration, SampleValidatePrompt(sample.input, modified));
      var a := Call(SampleValidator, prompt);
      ScreeningCalls(old(sampleValidator.script), counter);
      if a.Stalled? {
        return counter, Some(Stuck), false;
      }
      if a.Faulted? {
        return counter, Some(Finished("no", "", Fault("2"))), false;
      }
      RejectionsCall(old(log), prompt, Retry(old(sampleValidator.script)).consumed);
      var decision := Lower(Strip(a.value));
      if !Contains(decision, "yes") {
        ghost var log1 := log;
        Append(Entry(iteration, SampleRejected(decision)));
        GrewTrans(old(log), log1, log);
        return counter - 1, None, false;
      }
      return counter, None, true;
    }

    /** The inner loop of a sample: ask the sample validator about
        `modified` until it approves or `counter` rejections were logged. It
        does what `Screening` predicts from the validator's replies; on a
        normal end the rejections logged are what the counter lost, and a
        counter left over means the last reply approved `modified`. */
    method Check(i: nat, sample: Sample, modified: string, counter: nat) returns (left: nat, exit: Option<Outcome>)
      requires Valid() && Replaying()
      modifies this, sampleValidator
      ensures Valid() && Replaying()
      ensures iteration == old(iteration) && files == old(files) && sampleResults == old(sampleResults)
      ensures Grew(old(log), log) && old(sampleValidator.inbox) <= sampleValidator.inbox
      ensures var s := Screening(old(sampleValidator.script), counter);
        && left == s.left && exit == s.exit
        && sampleValidator.script == old(sampleValidator.script)[s.consumed..]
        && sampleValidator.answered == old(sampleValidator.answered) + old(sampleValidator.script)[..s.consumed]
      ensures exit == Some(Stuck) ==> sampleValidator.script == []
      ensures exit.Some? && exit != Some(Stuck) ==> exit == Some(Finished("no", "", Fault("2"))) && EndedInFault(sampleValidator)
      ensures exit.None? ==>
        && left <= counter && |sampleValidator.script| <= old(|sampleValidator.script|)
        && Rejections(log) == Rejections(old(log)) + (counter - left)
        && (left > 0 ==> Vouched(sampleValidator.inbox, sampleValidator.answered, sample.input, modified))
    {
      left, exit := counter, None;
      ghost var n: nat := 0;
      var stop := false;
      while left > 0 && !stop
        invariant Valid() && Replaying()
        invariant iteration == old(iteration) && files == old(files) && sampleResults == old(sampleResults)
        invariant Grew(old(log), log) && old(sampleValidator.inbox) <= sampleValidator.inbox
        invariant n <= |old(sampleValidator.script)| && sampleValidator.script == old(sampleValidator.script)[n..]
        invariant sampleValidator.answered == old(sampleValidator.answered) + old(sampleValidator.script)[..n]
        invariant left <= counter
        invariant exit.None? ==> Rejections(log) == Rejections(old(log)) + (counter - left)
        invariant !stop ==> exit.None?
        invariant !stop ==>
          var s := Screening(sampleValidator.script, left);
          Screening(old(sampleValidator.script), counter) == Screen(n + s.consumed, s.left, s.exit)
        invariant stop ==> Screening(old(sampleValidator.script), counter) == Screen(n, left, exit)
        invariant stop && exit.None? ==> Vouched(sampleValidator.inbox, sampleValidator.answered, sample.input, modified)
        invariant exit == Some(Stuck) ==> sampleValidator.script == []
        invariant exit.Some? && exit != Some(Stuck) ==> exit == Some(Finished("no", "", Fault("2"))) && EndedInFault(sampleValidator)
        decreases left, !stop
      {
        ghost var log0, script0 := log, sampleValidator.script;
        var approved;
        left, exit, approved := Round(sample, modified, left);
        GrewTrans(old(log), log0, log);
        Advance(old(sampleValidator.script), old(sampleValidator.answered), n, Retry(script0).consumed);
        n := n + Retry(script0).consumed;
        stop := exit.Some? || approved;
      }
    }

    /** The adapter's turn in a sample attempt: the prompt is logged and the
        whole log is sent once, with no retry. */
    method Adapt(sample: Sample, code: string) returns (r: Option<Reply<string>>)
      requires Valid() && Replaying()
      modifies this, adapter
      ensures Valid() && Replaying()
      ensures iteration == old(iteration) && files == old(files) && sampleResults == old(sampleResults)
      ensures log == old(log) + [Entry(iteration, AdaptPrompt(sample.input, code))]
      ensures Grew(old(log), log) && Rejections(log) == Rejections(old(log))
      ensures r.None? <==> old(adapter.script) == []
      ensures r.None? ==> adapter.script == []
      ensures r.Some? ==>
        && old(adapter.script) != [] && r.value == old(adapter.script)[0] && adapter.script == old(adapter.script)[1..]
        && adapter.inbox == old(adapter.inbox) + [log] && adapter.answered == old(adapter.answered) + [r.value]
    {
      Append(Entry(iteration, AdaptPrompt(sample.input, code)));
      ghost var inbox := adapter.inbox;
      r := adapter.Send(log);
      if r.Some? {
        ReplaysSend(inbox, log, Adapter);
      }
    }

    /** The adapter's reply is logged stripped, parsed, and written to the
        file of sample `i`. */
    method Rewrite(language: string, i: nat, text: string, ghost start: map<string, string>, n: nat)
      returns (modified: string)
      requires Replaying() && i < n
      requires Filed(validator.inbox, validator.answered, language, start, files, n)
      modifies this
      ensures Replaying() && Filed(validator.inbox, validator.answered, language, start, files, n)
      ensures iteration == old(iteration) && sampleResults == old(sampleResults)
      ensures log == old(log) + [Entry(iteration, AdapterReply(Strip(text)))]
      ensures Grew(old(log), log) && Rejections(log) == Rejections(old(log))
      ensures modified == ParseCode(Strip(text))
      ensures files == old(files)[Naming.SampleFile(Naming.Extension(language), i) := modified]
      ensures Untouched(old(files), files, Naming.TaskFile(Naming.Extension(language)))
    {
      Naming.SampleFilesDistinct(Naming.Extension(language), i, i);
      Append(Entry(iteration, AdapterReply(Strip(text))));
      modified := ParseCode(Strip(text));
      FiledSample(validator.inbox, validator.answered, language, start, files, n, i, modified);
      files := files[Naming.SampleFile(Naming.Extension(language), i) := modified];
    }

    /** The rest of a sample attempt once the adapter replied `text`: the
        rewrite is written to the sample's file and vetted as `Screening`
        predicts, then the file runs and one record is added. `done` exactly
        when the run produced output, which then followed an approval or the
        last rejection the counter allowed. */
    method Trial(language: string, i: nat, sample: Sample, text: string, counter: nat,
                 ghost start: map<string, string>, n: nat)
      returns (left: nat, exit: Option<Outcome>, done: bool)
      requires Valid() && Replaying() && i < n
      requires Filed(validator.inbox, validator.answered, language, start, files, n)
      modifies this, sampleValidator
      ensures Valid() && Replaying() && Filed(validator.inbox, validator.answered, language, start, files, n)
      ensures iteration == old(iteration) && Grew(old(log), log)
      ensures Untouched(old(files), files, Naming.TaskFile(Naming.Extension(language)))
      ensures files == old(files)[Naming.SampleFile(Naming.Extension(language), i) := ParseCode(Strip(text))]
      ensures Naming.SampleFile(Naming.Extension(language), i) in files
      ensures files[Naming.SampleFile(Naming.Extension(language), i)] == ParseCode(Strip(text))
      ensures var s := Screening(old(sampleValidator.script), counter);
        left == s.left && exit == s.exit
      ensures exit == Some(Stuck) ==> sampleValidator.script == []
      ensures exit.Some? && exit != Some(Stuck) ==> exit == Some(Finished("no", "", Fault("2"))) && EndedInFault(sampleValidator)
      ensures exit.None? ==>
        var name := Naming.SampleFile(Naming.Extension(language), i);
        && left <= counter && Rejections(log) == Rejections(old(log)) + (counter - left)
        && |sampleValidator.script| <= old(|sampleValidator.script|)
        && sampleResults != [] && sampleResults == old(sampleResults) + [Last(sampleResults)]
        && Recorded(execute, files, sampleResults, i, sample, name)
        && (done <==> execute(name, files[name]).Ran?)
        && (!done ==> Last(sampleResults) == Failing(i, sample, Last(sampleResults).error))
        && (done ==> left == 0 || Vouched(sampleValidator.inbox, sampleValidator.answered, sample.input, files[name]))
    {
      var name := Naming.SampleFile(Naming.Extension(language), i);
      var modified := Rewrite(language, i, text, start, n);
      ghost var log1 := log;
      var quit;
      left, quit := Check(i, sample, modified, counter);
      GrewTrans(old(log), log1, log);
      if quit.Some? {
        return left, quit, false;
      }
      exit := None;
      match execute(name, modified) {
        case Ran(stdout, stderr) =>
          sampleResults := sampleResults + [Completed(i, sample, stdout, stderr)];
          done := true;
        case Raised(message) =>
          sampleResults := sampleResults + [Failing(i, sample, message)];
          done := false;
      }
    }

    /** One pass of the sample loop: the adapter's turn, then, when it
        replied, the rest of the attempt. An adapter error records a failing
        result with its message and leaves the counter and the files; a reply
        is parsed into the sample's file, which the sample validator loop
        then vets. */
    method Attempt(language: string, i: nat, sample: Sample, code: string, counter: nat,
                   ghost start: map<string, string>, n: nat)
      returns (left: nat, exit: Option<Outcome>, done: bool)
      requires Valid() && Replaying() && i < n && counter > 0
      requires Filed(validator.inbox, validator.answered, language, start, files, n)
      modifies this, adapter, sampleValidator
      ensures Valid() && Replaying() && Filed(validator.inbox, validator.answered, language, start, files, n)
      ensures iteration == old(iteration) && Grew(old(log), log)
      ensures Untouched(old(files), files, Naming.TaskFile(Naming.Extension(language)))
      ensures exit == Some(Stuck) ==> adapter.script == [] || sampleValidator.script == []
      ensures exit.Some? && exit != Some(Stuck) ==> exit == Some(Finished("no", "", Fault("2"))) && EndedInFault(sampleValidator)
      ensures old(adapter.script) == [] ==> exit == Some(Stuck)
      ensures old(adapter.script) != [] ==> adapter.answered == old(adapter.answered) + [old(adapter.script)[0]]
      ensures old(adapter.script) != [] && old(adapter.script)[0].Err? ==>
        && exit.None? && left == counter && !done && files == old(files)
        && sampleResults == old(sampleResults) + [Failing(i, sample, old(adapter.script)[0].message)]
      ensures old(adapter.script) != [] && old(adapter.script)[0].Ok? ==>
        var s := Screening(old(sampleValidator.script), counter);
        && files == old(files)[Naming.SampleFile(Naming.Extension(language), i) := ParseCode(Strip(old(adapter.script)[0].value))]
        && left == s.left && exit == s.exit
      ensures exit.None? ==>
        var name := Naming.SampleFile(Naming.Extension(language), i);
        && left <= counter && Rejections(log) == Rejections(old(log)) + (counter - left)
        && |adapter.script| < old(|adapter.script|) && |sampleValidator.script| <= old(|sampleValidator.script|)
        && sampleResults != [] && sampleResults == old(sampleResults) + [Last(sampleResults)]
        && (!done ==> Last(sampleResults) == Failing(i, sample, Last(sampleResults).error))
        && ((done || left == 0) ==> Recorded(execute, files, sampleResults, i, sample, name) && Adapted(adapter.answered, files[name]))
        && (done ==> left == 0 || Vouched(sampleValidator.inbox, sampleValidator.answered, sample.input, files[name]))
    {
      ghost var log0 := log;
      var r := Adapt(sample, code);
      if r.None? {
        return counter, Some(Stuck), false;
      }
      if r.value.Err? {
        sampleResults := sampleResults + [Failing(i, sample, r.value.message)];
        return counter, None, false;
      }
      ghost var log1 := log;
      left, exit, done := Trial(language, i, sample, r.value.value, counter, start, n);
      GrewTrans(log0, log1, log);
    }

    /** One sample of the sample loop (`counter = 3`): adapter, file, sample
        validator, run. An adapter error or an exception from the run records
        a failing result and starts over; the sample ends after a run that
        produced output, or after a run once three rejections were logged.
        Only its own file is written; every record but the last reports a
        failure, and the last is what running the file gave, the file then
        holding the last adapter reply parsed. */
    method RunSample(language: string, i: nat, sample: Sample, code: string, ghost start: map<string, string>, n: nat)
      returns (exit: Option<Outcome>)
      requires Valid() && Replaying() && i < n
      requires Filed(validator.inbox, validator.answered, language, start, files, n)
      modifies this, adapter, sampleValidator
      ensures Valid() && Replaying() && Filed(validator.inbox, validator.answered, language, start, files, n)
      ensures iteration == old(iteration) && Grew(old(log), log)
      ensures Untouched(old(files), files, Naming.TaskFile(Naming.Extension(language)))
      ensures exit == Some(Stuck) ==> adapter.script == [] || sampleValidator.script == []
      ensures exit.Some? && exit != Some(Stuck) ==> exit == Some(Finished("no", "", Fault("2"))) && EndedInFault(sampleValidator)
      ensures exit.None? ==>
        var name := Naming.SampleFile(Naming.Extension(language), i);
        && SampleTried(execute, old(files), files, old(adapter.answered), adapter.answered, old(sampleResults), sampleResults, i, sample, name)
        && Rejections(log) <= Rejections(old(log)) + 3
        && (Rejections(log) == Rejections(old(log)) + 3 || Vouched(sampleValidator.inbox, sampleValidator.answered, sample.input, files[name]))
        && |adapter.script| <= old(|adapter.script|) && |sampleValidator.script| <= old(|sampleValidator.script|)
    {
      var counter, done := 3, false;
      ghost var name := Naming.SampleFile(Naming.Extension(language), i);
      while counter > 0 && !done
        invariant Valid() && Replaying() && Filed(validator.inbox, validator.answered, language, start, files, n)
        invariant iteration == old(iteration) && Grew(old(log), log)
        invariant Untouched(old(files), files, Naming.TaskFile(Naming.Extension(language)))
        invariant counter <= 3 && Rejections(log) == Rejections(old(log)) + (3 - counter)
        invariant old(sampleResults) <= sampleResults
        invariant !done ==> Retried(sampleResults, |old(sampleResults)|, |sampleResults|, i, sample)
        invariant files == old(files) || (name in files && files == old(files)[name := files[name]])
        invariant old(adapter.answered) <= adapter.answered
        invariant counter == 0 || done ==>
          SampleTried(execute, old(files), files, old(adapter.answered), adapter.answered, old(sampleResults), sampleResults, i, sample, name)
        invariant done ==> counter == 0 || Vouched(sampleValidator.inbox, sampleValidator.answered, sample.input, files[name])
        invariant |adapter.script| <= old(|adapter.script|) && |sampleValidator.script| <= old(|sampleValidator.script|)
        decreases |adapter.script|
      {
        ghost var log0, results, files0 := log, sampleResults, files;
        var left, quit;
        left, quit, done := Attempt(language, i, sample, code, counter, start, n);
        GrewTrans(old(log), log0, log);
        if quit.Some? {
          return quit;
        }
        if files != files0 {
          Overwrite(old(files), name, if name in files0 then files0[name] else "", files[name]);
        }
        RetriedNext(results, Last(sampleResults), |old(sampleResults)|, i, sample);
        counter := left;
      }
      exit := None;
    }

    /** The sample loop: every sample in order, from an empty record list.
        When it ends normally every record describes one of the samples and
        reports a failure or the run of that sample's file, and every sample
        was tested. */
    method RunSamples(language: string, samples: seq<Sample>, code: string, ghost start: map<string, string>)
      returns (exit: Option<Outcome>)
      requires Valid() && Replaying()
      requires Filed(validator.inbox, validator.answered, language, start, files, |samples|)
      modifies this, adapter, sampleValidator
      ensures Valid() && Replaying() && Filed(validator.inbox, validator.answered, language, start, files, |samples|)
      ensures iteration == old(iteration) && Grew(old(log), log)
      ensures exit == Some(Stuck) ==> adapter.script == [] || sampleValidator.script == []
      ensures exit.Some? && exit != Some(Stuck) ==> exit == Some(Finished("no", "", Fault("2"))) && EndedInFault(sampleValidator)
      ensures Untouched(old(files), files, Naming.TaskFile(Naming.Extension(language)))
      ensures exit.None? ==>
        && SamplesRun(execute, files, adapter.answered, Naming.Extension(language), sampleResults, samples)
        && Rejections(log) <= Rejections(old(log)) + 3 * |samples|
        && |adapter.script| <= old(|adapter.script|) && |sampleValidator.script| <= old(|sampleValidator.script|)
    {
      sampleResults := [];
      ghost var ext := Naming.Extension(language);
      for i := 0 to |samples|
        invariant Valid() && Replaying() && Filed(validator.inbox, validator.answered, language, start, files, |samples|)
        invariant iteration == old(iteration) && Grew(old(log), log)
        invariant Untouched(old(files), files, Naming.TaskFile(ext))
        invariant SamplesUpTo(execute, files, adapter.answered, ext, sampleResults, samples, i)
        invariant Rejections(log) <= Rejections(old(log)) + 3 * i
        invariant |adapter.script| <= old(|adapter.script|) && |sampleValidator.script| <= old(|sampleValidator.script|)
      {
        ghost var before, log0, files0, adapted0 := sampleResults, log, files, adapter.answered;
        exit := RunSample(language, i, samples[i], code, start, |samples|);
        GrewTrans(old(log), log0, log);
        if exit.Some? {
          return;
        }
        SamplesNext(execute, files0, files, adapted0, adapter.answered, ext, before, sampleResults, samples, i);
      }
      exit := None;
    }

    /** What `host` returns from inside a pass, checked against the agents'
        histories and the files: a Judge "yes" about the summary of the
        sample runs of approved, saved code, those runs being what the sample
        loop leaves, or a role-tagged fault, or a script that ran out. */
    ghost predicate Returned(outcome: Outcome, language: string, samples: seq<Sample>)
      reads this, generator, validator, adapter, sampleValidator, judge
    {
      && Ended(outcome, language, samples)
      && (Succeeded(outcome) ==> SamplesRun(execute, files, adapter.answered, Naming.Extension(language), sampleResults, samples))
    }

    /** `Returned` apart from the sample runs: what the Judge step checks. */
    ghost predicate Ended(outcome: Outcome, language: string, samples: seq<Sample>)
      reads this, generator, validator, adapter, sampleValidator, judge
    {
      match outcome
      case Unbound => false
      case Stuck =>
        generator.script == [] || validator.script == [] || adapter.script == [] || sampleValidator.script == [] || judge.script == []
      case Finished(status, result, explanation) =>
        if status == "yes" then
          var name := Naming.TaskFile(Naming.Extension(language));
          && judge.answered != [] && Last(judge.answered).Ok? && Last(judge.answered).value.Parsed?
          && Accepts(Reading(Last(judge.answered).value).0)
          && explanation == Reading(Last(judge.answered).value).1
          && judge.inbox != [] && Last(judge.inbox) == log
          && log != [] && Last(log).body == JudgePrompt(Summarize(sampleResults, |samples|))
          && LastGenerated(log) == Some(result)
          && Approves(validator.inbox, validator.answered, language, result)
          && name in files && files[name] == result
        else
          && status == "no" && result == ""
          && (explanation == Fault("1") ==> EndedInFault(generator))
          && (explanation == Fault("2") ==> EndedInFault(validator) || EndedInFault(sampleValidator))
          && (explanation == Fault("3") ==> JudgeFaulted(judge))
          && (explanation == Fault("1") || explanation == Fault("2") || explanation == Fault("3"))
    }

    /** Step 4 of a pass: the Judge reads the summary of the sample runs of
        `code`, which was approved and saved. A "yes" ends `host`; a "no" is
        logged as the pass's one verdict and moves to the next iteration. */
    method Assess(language: string, samples: seq<Sample>, code: string)
      returns (step: Step)
      requires Valid() && Replaying()
      requires Approves(validator.inbox, validator.answered, language, code)
      requires LastGenerated(log) == Some(code)
      requires Naming.TaskFile(Naming.Extension(language)) in files && files[Naming.TaskFile(Naming.Extension(language))] == code
      modifies this, judge
      ensures Valid() && Replaying() && files == old(files) && sampleResults == old(sampleResults)
      ensures old(log) <= log
      ensures !step.Rejected?
      ensures step.Return? ==> iteration == old(iteration) && Verdicts(log) == Verdicts(old(log))
      ensures step.Return? ==> Ended(step.outcome, language, samples)
      ensures step.Declined? ==>
        && iteration == old(iteration) + 1 && Verdicts(log) == Verdicts(old(log)) + 1
        && LastGenerated(log) == Some(code) && |judge.script| < old(|judge.script|)
      // the outcome is the Judge loop's answer
      ensures var j := Judgment(old(judge.script)).answer;
        && (j.Answered? && Accepts(j.value.0) ==> step == Return(Finished("yes", code, j.value.1)))
        && (step.Declined? <==> j.Answered? && !Accepts(j.value.0))
        && (step.Declined? ==> Last(log) == Entry(old(iteration), Verdict(j.value.0, j.value.1)))
        && (j.Faulted? <==> step == Return(Finished("no", "", Fault("3"))))
        && (j.Stalled? <==> step == Return(Stuck))
      ensures Unaccepted(judge.answered) <==> Unaccepted(old(judge.answered)) && !(step.Return? && Succeeded(step.outcome))
      ensures Unaccepted(old(judge.answered)) && step.Return? && Succeeded(step.outcome) ==> AcceptedLast(judge.answered)
    {
      FaultsDistinct();
      var j := Consult(Entry(iteration, JudgePrompt(Summarize(sampleResults, |samples|))));
      GrewKeeps(old(log), log);
      if j.Stalled? {
        return Return(Stuck);
      }
      if j.Faulted? {
        return Return(Finished("no", "", Fault("3")));
      }
      var (decision, explanation) := j.value;
      if Accepts(decision) {
        return Return(Finished("yes", code, explanation));
      }
      Decline(decision, explanation);
      return Declined;
    }

    /** A Judge "no": the verdict is logged and the next iteration begins. */
    method Decline(decision: string, explanation: string)
      requires Valid() && Replaying()
      modifies this
      ensures Valid() && Replaying()
      ensures log == old(log) + [Entry(old(iteration), Verdict(decision, explanation))] && iteration == old(iteration) + 1
      ensures files == old(files) && sampleResults == old(sampleResults)
      ensures Verdicts(log) == Verdicts(old(log)) + 1 && LastGenerated(log) == LastGenerated(old(log))
    {
      Append(Entry(iteration, Verdict(decision, explanation)));
      iteration := iteration + 1;
    }

    /** Step 3 of a pass: save approved code to `task.<ext>` and run the
        samples, then let the Judge assess the result. */
    method Conclude(language: string, samples: seq<Sample>, code: string, ghost start: map<string, string>)
      returns (step: Step)
      requires Valid() && Replaying() && Filed(validator.inbox, validator.answered, language, start, files, |samples|)
      requires Approves(validator.inbox, validator.answered, language, code)
      requires LastGenerated(log) == Some(code)
      modifies this, adapter, sampleValidator, judge
      ensures Valid() && Replaying() && Filed(validator.inbox, validator.answered, language, start, files, |samples|)
      ensures old(log) + [Entry(old(iteration), CodeSaved)] <= log
      ensures !step.Rejected?
      ensures step.Return? ==> iteration == old(iteration) && Verdicts(log) == Verdicts(old(log))
      ensures step.Return? ==> Returned(step.outcome, language, samples)
      ensures step.Declined? ==>
        && iteration == old(iteration) + 1 && Verdicts(log) == Verdicts(old(log)) + 1
        && LastGenerated(log) == Some(code)
        && |adapter.script| <= old(|adapter.script|) && |sampleValidator.script| <= old(|sampleValidator.script|)
        && |judge.script| <= old(|judge.script|)
      ensures Unaccepted(judge.answered) <==> Unaccepted(old(judge.answered)) && !(step.Return? && Succeeded(step.outcome))
      ensures Unaccepted(old(judge.answered)) && step.Return? && Succeeded(step.outcome) ==> AcceptedLast(judge.answered)
    {
      var exit := SaveAndTest(language, samples, code, start);
      if exit.Some? {
        return Return(exit.value);
      }
      ghost var written, adapted, results, saved := files, adapter.answered, sampleResults, log;
      step := Assess(language, samples, code);
      assert files == written && adapter.answered == adapted && sampleResults == results;
      PrefixTrans(old(log) + [Entry(old(iteration), CodeSaved)], saved, log);
    }

    /** The first half of step 3: `code` is saved to `task.<ext>`, the save
        is logged, and the samples are run. */
    method SaveAndTest(language: string, samples: seq<Sample>, code: string, ghost start: map<string, string>)
      returns (exit: Option<Outcome>)
      requires Valid() && Replaying() && Filed(validator.inbox, validator.answered, language, start, files, |samples|)
      requires Approves(validator.inbox, validator.answered, language, code)
      requires LastGenerated(log) == Some(code)
      modifies this, adapter, sampleValidator
      ensures Valid() && Replaying() && Filed(validator.inbox, validator.answered, language, start, files, |samples|)
      ensures iteration == old(iteration) && Verdicts(log) == Verdicts(old(log)) && LastGenerated(log) == Some(code)
      ensures Naming.TaskFile(Naming.Extension(language)) in files && files[Naming.TaskFile(Naming.Extension(language))] == code
      ensures exit.Some? ==> Returned(exit.value, language, samples) && !Succeeded(exit.value)
      ensures exit.None? ==>
        && SamplesRun(execute, files, adapter.answered, Naming.Extension(language), sampleResults, samples)
        && |adapter.script| <= old(|adapter.script|) && |sampleValidator.script| <= old(|sampleValidator.script|)
      // the save is logged, and the sample loop only appends after it
      ensures Grew(old(log) + [Entry(old(iteration), CodeSaved)], log)
    {
      FaultsDistinct();
      FiledTask(validator.inbox, validator.answered, language, start, files, |samples|, code);
      files := files[Naming.TaskFile(Naming.Extension(language)) := code];
      Append(Entry(iteration, CodeSaved));
      ghost var log0 := log;
      exit := RunSamples(language, samples, code, start);
      GrewTrans(old(log), log0, log);
      GrewKeeps(old(log), log);
    }

    /** The validator's turn: its reply is logged stripped, and a reply
        containing "yes" is an approval of `code` in its history. */
    method Review(language: string, code: string, ghost start: map<string, string>, n: nat)
      returns (a: Answer<string>)
      requires Valid() && Replaying() && Filed(validator.inbox, validator.answered, language, start, files, n)
      modifies this, validator
      ensures Valid() && Replaying() && Filed(validator.inbox, validator.answered, language, start, files, n)
      ensures iteration == old(iteration) && files == old(files) && sampleResults == old(sampleResults)
      ensures Verdicts(log) == Verdicts(old(log)) && LastGenerated(log) == LastGenerated(old(log))
      ensures a == Retry(old(validator.script)).answer
      ensures a.Stalled? ==> validator.script == []
      ensures !a.Stalled? ==> |validator.script| < old(|validator.script|)
      ensures a.Faulted? ==> EndedInFault(validator)
      ensures a.Answered? && Affirms(a.value) ==> Approves(validator.inbox, validator.answered, language, code)
      ensures a.Answered? ==> log != [] && Last(log) == Entry(iteration, ValidatorReply(Strip(a.value)))
      // the log is only appended to: the prompt once per attempt, then the reply
      ensures Grew(old(log), log)
      ensures a.Answered? ==>
        log == old(log) + Repeat(Entry(iteration, ValidatePrompt(language, code)), Retry(old(validator.script)).consumed)
                        + [Entry(iteration, ValidatorReply(Strip(a.value)))]
    {
      ghost var inbox, answered := validator.inbox, validator.answered;
      a := Call(Validator, Entry(iteration, ValidatePrompt(language, code)));
      GrewKeeps(old(log), log);
      FiledGrows(inbox, answered, validator.inbox, validator.answered, language, start, files, n);
      if a.Answered? {
        if Affirms(a.value) {
          ApprovesLast(validator.inbox, validator.answered, language, code);
        }
        ghost var log1 := log;
        Append(Entry(iteration, ValidatorReply(Strip(a.value))));
        GrewTrans(old(log), log1, log);
      }
    }

    /** Step 2 of a pass: the validator vets the generated `code`. A reply
        without "yes" logs the failure and restarts the loop in the same
        iteration. */
    method Vet(language: string, samples: seq<Sample>, code: string, ghost start: map<string, string>)
      returns (step: Step)
      requires Valid() && Replaying() && Filed(validator.inbox, validator.answered, language, start, files, |samples|)
      requires LastGenerated(log) == Some(code)
      modifies this, validator, adapter, sampleValidator, judge
      ensures Valid() && Replaying() && Filed(validator.inbox, validator.answered, language, start, files, |samples|)
      ensures step.Return? ==> iteration == old(iteration) && Verdicts(log) == Verdicts(old(log))
      ensures step.Return? ==> Returned(step.outcome, language, samples)
      ensures step.Rejected? ==> iteration == old(iteration) && Verdicts(log) == Verdicts(old(log))
      ensures step.Declined? ==> iteration == old(iteration) + 1 && Verdicts(log) == Verdicts(old(log)) + 1
      ensures !step.Return? ==> LastGenerated(log) == Some(code) && Remaining() <= old(Remaining())
      // the validator's answer decides whether the pass goes on
      ensures var v := Retry(old(validator.script)).answer;
        && (step.Rejected? <==> v.Answered? && !Affirms(v.value))
        && (step.Rejected? ==> log != [] && Last(log) == Entry(old(iteration), ValidationFailed))
        && (step.Rejected? ==>
             log == old(log) + Repeat(Entry(old(iteration), ValidatePrompt(language, code)), Retry(old(validator.script)).consumed)
                             + [Entry(old(iteration), ValidatorReply(Strip(v.value)))] + [Entry(old(iteration), ValidationFailed)])
        && (v.Stalled? ==> step == Return(Stuck))
        && (v.Faulted? ==> step == Return(Finished("no", "", Fault("2"))))
      ensures old(log) <= log
      ensures Unaccepted(judge.answered) <==> Unaccepted(old(judge.answered)) && !(step.Return? && Succeeded(step.outcome))
      ensures Unaccepted(old(judge.answered)) && step.Return? && Succeeded(step.outcome) ==> AcceptedLast(judge.answered)
    {
      FaultsDistinct();
      var v := Review(language, code, start, |samples|);
      if v.Stalled? {
        return Return(Stuck);
      }
      if v.Faulted? {
        return Return(Finished("no", "", Fault("2")));
      }
      if !Affirms(v.value) {
        Append(Entry(iteration, ValidationFailed));
        return Rejected;
      }
      ghost var log1 := log;
      step := Conclude(language, samples, code, start);
      PrefixTrans(log1, log1 + [Entry(old(iteration), CodeSaved)], log);
      PrefixTrans(old(log), log1, log);
    }

    /** One pass of the `host` loop: the generator writes code, which is
        parsed and logged, then vetted. Every pass that does not return
        consumes a generator reply. */
    method Pass(task: string, language: string, samples: seq<Sample>, ghost start: map<string, string>)
      returns (step: Step, code: Option<string>)
      requires Valid() && Replaying() && Filed(validator.inbox, validator.answered, language, start, files, |samples|)
      requires Tasked(generator.inbox, language, task)
      modifies this, generator, validator, adapter, sampleValidator, judge
      ensures Valid() && Replaying() && Filed(validator.inbox, validator.answered, language, start, files, |samples|)
      ensures Tasked(generator.inbox, language, task)
      // the log is only appended to: the generator prompt once per attempt, then the code
      ensures old(log) <= log
      ensures code.Some? ==>
        old(log) + Repeat(Entry(old(iteration), GeneratePrompt(language, task)), Retry(old(generator.script)).consumed)
                 + [Entry(old(iteration), GeneratorOutput(code.value))] <= log
      ensures step.Return? ==> iteration == old(iteration) && Verdicts(log) == Verdicts(old(log))
      ensures step.Return? ==> Returned(step.outcome, language, samples)
      ensures step.Rejected? ==> iteration == old(iteration) && Verdicts(log) == Verdicts(old(log))
      ensures step.Declined? ==> iteration == old(iteration) + 1 && Verdicts(log) == Verdicts(old(log)) + 1
      ensures !step.Return? ==> code.Some? && LastGenerated(log) == code && Remaining() < old(Remaining())
      // the code is the generator's answer parsed, and a generator fault ends the run
      ensures var g := Retry(old(generator.script)).answer;
        && (code.Some? <==> g.Answered?)
        && (code.Some? ==> code.value == ParseCode(Strip(g.value)))
        && (g.Stalled? ==> step == Return(Stuck))
        && (g.Faulted? ==> step == Return(Finished("no", "", Fault("1"))))
      ensures Unaccepted(judge.answered) <==> Unaccepted(old(judge.answered)) && !(step.Return? && Succeeded(step.outcome))
      ensures Unaccepted(old(judge.answered)) && step.Return? && Succeeded(step.outcome) ==> AcceptedLast(judge.answered)
    {
      FaultsDistinct();
      ghost var inbox := generator.inbox;
      var g := Call(Generator, Entry(iteration, GeneratePrompt(language, task)));
      GrewKeeps(old(log), log);
      TaskedGrows(inbox, generator.inbox, Entry(old(iteration), GeneratePrompt(language, task)), language, task);
      if g.Stalled? {
        return Return(Stuck), None;
      }
      if g.Faulted? {
        return Return(Finished("no", "", Fault("1"))), None;
      }
      var refined := ParseCode(Strip(g.value));
      code := Some(refined);
      Append(Entry(iteration, GeneratorOutput(refined)));
      ghost var log1 := log;
      step := Vet(language, samples, refined, start);
      PrefixTrans(old(log), log1, log);
    }

    /** `host`: the loop runs while the budget admits the iteration; a
        validator rejection repeats the iteration, a Judge "no" moves to the
        next one, so the iteration is always one more than the verdicts
        logged. */
    method Host(task: string, language: string, samples: seq<Sample>, maxIterations: int)
      returns (r: Outcome, ghost passes: seq<seq<Entry>>)
      requires Valid()
      requires generator.inbox == [] && validator.inbox == [] && adapter.inbox == [] && sampleValidator.inbox == [] && judge.inbox == []
      modifies this, generator, validator, adapter, sampleValidator, judge
      ensures Valid() && Replaying()
      // the loop runs at all exactly when the budget admits iteration 1
      ensures r == Unbound <==> !InBudget(1, maxIterations)
      ensures r == Unbound ==> log == [] && files == old(files)
      ensures maxIterations >= 0 ==> Verdicts(log) <= maxIterations
      // exhaustion: every iteration ended in a Judge "no"; the last generated code is returned
      ensures r.Finished? && r.status == "no" && r.explanation == EXHAUSTED ==>
        && maxIterations >= 1 && Verdicts(log) == maxIterations && LastGenerated(log) == Some(r.code)
      ensures maxIterations == -1 ==> r != Unbound && !(r.Finished? && r.status == "no" && r.explanation == EXHAUSTED)
      // acceptance, faults and exhausted scripts, as `Returned` states them
      ensures r.Finished? && (r.status == "yes" || r.explanation != EXHAUSTED) ==> Returned(r, language, samples)
      ensures r == Stuck ==> Returned(r, language, samples)
      // "yes" exactly when the Judge gave an accepting reply, and then it was its last one
      ensures Succeeded(r) <==> !Unaccepted(judge.answered)
      ensures Succeeded(r) ==> AcceptedLast(judge.answered)
      // what was written
      ensures Filed(validator.inbox, validator.answered, language, old(files), files, |samples|)
      // every generator request asks for `task`
      ensures Tasked(generator.inbox, language, task)
      // the log as each pass began: each pass only appended to it
      ensures Extended(passes, log)
      ensures r != Unbound <==> passes != []
      ensures passes != [] ==> passes[0] == []
    {
      MessagesDistinct();
      log := [];
      iteration := 1;
      ghost var start := files;
      var refined: Option<string> := None;
      passes := [];
      while InBudget(iteration, maxIterations)
        invariant Valid() && Replaying() && Filed(validator.inbox, validator.answered, language, start, files, |samples|)
        invariant iteration == 1 + Verdicts(log)
        invariant maxIterations >= 0 ==> iteration <= maxIterations + 1
        invariant iteration == 1 || InBudget(iteration - 1, maxIterations)
        invariant refined.None? ==> log == [] && files == start
        invariant refined.Some? ==> LastGenerated(log) == refined && InBudget(1, maxIterations)
        invariant Unaccepted(judge.answered)
        invariant Tasked(generator.inbox, language, task)
        invariant Extended(passes, log)
        invariant refined.None? <==> passes == []
        invariant passes != [] ==> passes[0] == []
        decreases Remaining()
      {
        ghost var before := log;
        var step, code := Pass(task, language, samples, start);
        ExtendedNext(passes, before, log);
        passes := passes + [before];
        if step.Return? {
          return step.outcome, passes;
        }
        refined := code;
      }
      if refined.None? {
        return Unbound, passes;
      }
      return Finished("no", refined.value, EXHAUSTED), passes;
    }
  }
}
