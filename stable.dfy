/** The stable host (stable/script.py): three agents with no shared history,
    generate -> validate -> judge, no sample testing. */
module Stable {
  import opened Text
  import opened Oracle
  import opened Workflow
  import Naming

  /** `parse_code`: a fenced reply loses its first and last line, any other
      reply is returned as it is. */
  function ParseCode(raw: string): string {
    if Fenced(raw) then Unfence(raw) else raw
  }

  /** A fenced code block comes back as exactly its code lines. */
  lemma ParseCodeRoundTrip(tag: string, lines: seq<string>)
    requires '\n' !in tag
    requires forall k :: 0 <= k < |lines| ==> '\n' !in lines[k]
    ensures ParseCode(Fence(tag, lines)) == JoinLines(lines)
  {
    FenceRoundTrip(tag, lines);
  }

  /** On unfenced text `parse_code` is the identity, hence idempotent there. */
  lemma ParseCodeUnfenced(raw: string)
    requires !Fenced(raw)
    ensures ParseCode(raw) == raw && ParseCode(ParseCode(raw)) == ParseCode(raw)
  {
  }

  /** What `execute_code` runs: one interpreter command, or a compiler
      command followed by running the binary it produced. */
  datatype Plan = Interpret(run: seq<string>) | CompileThenRun(compile: seq<string>, run: seq<string>)

  /** The command selection of `execute_code`, or the `ValueError` it raises. */
  datatype Selection = Selected(plan: Plan) | Unsupported(message: string)

  /** Command selection of `execute_code`; the binary name is the source path
      with every ".c" (or ".cu") replaced by ".out". */
  function Commands(language: string, filepath: string): Selection {
    if language == "python" then Selected(Interpret(["python", filepath]))
    else if language == "c" then
      var binary := ReplaceAll(filepath, ".c", ".out");
      Selected(CompileThenRun(["gcc", filepath, "-o", binary], ["./" + binary]))
    else if language == "js" then Selected(Interpret(["node", filepath]))
    else if language == "nvcc" then
      var binary := ReplaceAll(filepath, ".cu", ".out");
      Selected(CompileThenRun(["nvcc", filepath, "-o", binary], ["./" + binary]))
    else Unsupported("Unsupported language: " + language)
  }

  /** Exactly the four known languages are supported; every command names the
      source file; a compiled language runs the very binary it compiled to. */
  lemma CommandsShape(language: string, filepath: string)
    ensures Commands(language, filepath).Unsupported? <==> !Naming.Known(language)
    ensures Commands(language, filepath).Unsupported? ==>
      Commands(language, filepath).message == "Unsupported language: " + language
    ensures Commands(language, filepath).Selected? ==>
      match Commands(language, filepath).plan
      case Interpret(run) => |run| == 2 && run[1] == filepath
      case CompileThenRun(compile, run) =>
        |compile| == 4 && compile[1] == filepath && compile[2] == "-o" && run == ["./" + compile[3]]
  {
  }

  /** For the file the host writes, `task.c` compiles to `task.out` and so
      does `task.cu`. */
  lemma TaskFileCommands(stem: string)
    requires '.' !in stem
    ensures Commands("c", stem + ".c") ==
      Selected(CompileThenRun(["gcc", stem + ".c", "-o", stem + ".out"], ["./" + stem + ".out"]))
    ensures Commands("nvcc", stem + ".cu") ==
      Selected(CompileThenRun(["nvcc", stem + ".cu", "-o", stem + ".out"], ["./" + stem + ".out"]))
    ensures Naming.TaskFile(Naming.Extension("c")) == "task" + ".c"
    ensures Naming.TaskFile(Naming.Extension("nvcc")) == "task" + ".cu"
  {
    ReplaceSuffix(stem, ".c", ".out");
    ReplaceSuffix(stem, ".cu", ".out");
    assert "./" + (stem + ".out") == "./" + stem + ".out";
    assert Naming.TaskFile("c") == "task" + ".c";
    assert Naming.TaskFile("cu") == "task" + ".cu";
  }

  /** The single prompts the stable host sends; no agent ever sees the log. */
  datatype Prompt =
    | GenerateRequest(language: string, task: string)
    | ValidateRequest(language: string, code: string)
    | JudgeRequest(validatedCode: string)

  /** `conversation_log` entries, timestamps left out. */
  datatype Body = Generated(code: string) | ValidationFailed | Saved
  datatype Entry = Entry(iteration: int, body: Body)

  /** Pass `n` of the loop logs the generated code at position 2(n-1) and
      then either "Validation failed" or "saved" at position 2n-1. */
  ghost predicate Shaped(log: seq<Entry>) {
    forall i :: 0 <= i < |log| ==> log[i].iteration == i / 2 + 1 && (log[i].body.Generated? <==> i % 2 == 0)
  }

  /** Validator call `k` was about `code` and was answered with a reply
      containing "yes". */
  ghost predicate ApprovedAt(inbox: seq<Prompt>, answered: seq<Reply<string>>, language: string, code: string, k: int) {
    0 <= k < |inbox| && k < |answered| && inbox[k] == ValidateRequest(language, code)
    && answered[k].Ok? && Affirms(answered[k].value)
  }

  /** Some validator call about `code` was answered with a reply containing "yes". */
  ghost predicate Approves(inbox: seq<Prompt>, answered: seq<Reply<string>>, language: string, code: string) {
    exists k :: ApprovedAt(inbox, answered, language, code, k)
  }

  /** An approval stays an approval when the validator's history grows. */
  lemma ApprovesKept(inbox: seq<Prompt>, answered: seq<Reply<string>>, inbox': seq<Prompt>, answered': seq<Reply<string>>,
                      language: string, code: string)
    requires inbox <= inbox' && answered <= answered'
    requires Approves(inbox, answered, language, code)
    ensures Approves(inbox', answered', language, code)
  {
    var k :| ApprovedAt(inbox, answered, language, code, k);
    assert inbox'[k] == inbox[k] && answered'[k] == answered[k];
    assert ApprovedAt(inbox', answered', language, code, k);
  }

  /** Every message in `inbox` is `m`. */
  ghost predicate AllAre<M>(inbox: seq<M>, m: M) {
    forall k :: 0 <= k < |inbox| ==> inbox[k] == m
  }

  /** Every validator request is about `language`. */
  ghost predicate ValidationRequests(inbox: seq<Prompt>, language: string) {
    forall k :: 0 <= k < |inbox| ==> inbox[k].ValidateRequest? && inbox[k].language == language
  }

  /** Every Judge request carries code the validator approved. */
  ghost predicate Vetted(judged: seq<Prompt>, inbox: seq<Prompt>, answered: seq<Reply<string>>, language: string) {
    forall k :: 0 <= k < |judged| ==>
      judged[k].JudgeRequest? && Approves(inbox, answered, language, judged[k].validatedCode)
  }

  lemma VettedGrows(judged: seq<Prompt>, inbox: seq<Prompt>, answered: seq<Reply<string>>,
                    inbox': seq<Prompt>, answered': seq<Reply<string>>, language: string)
    requires inbox <= inbox' && answered <= answered'
    requires Vetted(judged, inbox, answered, language)
    ensures Vetted(judged, inbox', answered', language)
  {
    forall k | 0 <= k < |judged|
      ensures Approves(inbox', answered', language, judged[k].validatedCode)
    {
      ApprovesKept(inbox, answered, inbox', answered', language, judged[k].validatedCode);
    }
  }

  /** Judge requests about approved code keep the Judge's history vetted. */
  lemma VettedExtend(judged: seq<Prompt>, code: string, n: nat,
                     inbox: seq<Prompt>, answered: seq<Reply<string>>, language: string)
    requires Vetted(judged, inbox, answered, language)
    requires Approves(inbox, answered, language, code)
    ensures Vetted(judged + Repeat(JudgeRequest(code), n), inbox, answered, language)
  {
    var all := judged + Repeat(JudgeRequest(code), n);
    RepeatSpec(JudgeRequest(code), n);
    forall k | 0 <= k < |all|
      ensures all[k].JudgeRequest? && Approves(inbox, answered, language, all[k].validatedCode)
    {
      if k >= |judged| {
        assert all[k] == JudgeRequest(code);
      } else {
        assert all[k] == judged[k];
      }
    }
  }

  /** Only `name` may have been written. */
  ghost predicate OnlyWrote(before: map<string, string>, after: map<string, string>, name: string) {
    forall f :: f != name ==> (f in after <==> f in before) && (f in after ==> after[f] == before[f])
  }

  /** Pass `n` logs its generated code and then a second entry. */
  lemma ShapedPass(log: seq<Entry>, n: int, code: string, second: Body)
    requires Shaped(log) && |log| == 2 * (n - 1) && !second.Generated?
    ensures Shaped(log + [Entry(n, Generated(code))])
    ensures Shaped(log + [Entry(n, Generated(code)), Entry(n, second)])
  {
    var one := log + [Entry(n, Generated(code))];
    var two := log + [Entry(n, Generated(code)), Entry(n, second)];
    assert |log| / 2 + 1 == n && (|log| + 1) / 2 + 1 == n;
    forall i | 0 <= i < |two|
      ensures two[i].iteration == i / 2 + 1 && (two[i].body.Generated? <==> i % 2 == 0)
    {
      if i < |log| {
        assert two[i] == log[i];
      }
    }
    assert one == two[..|log| + 1];
  }

  /** How one pass of the loop ends: with a rejection by the validator, with
      a Judge "no", or by returning from `host`. */
  datatype Step = Rejected | Declined | Return(outcome: Outcome)

  /** One call of `host`: the log, the written files and the three agents. */
  class Run {
    var iteration: int
    var log: seq<Entry>
    var files: map<string, string>
    const generator: Agent<Prompt, Reply<string>>
    const validator: Agent<Prompt, Reply<string>>
    const judge: Agent<Prompt, Reply<Verdict>>

    ghost predicate Valid()
      reads generator, validator, judge
    {
      generator != validator && generator.Valid() && validator.Valid() && judge.Valid()
    }

    constructor (generator: Agent<Prompt, Reply<string>>, validator: Agent<Prompt, Reply<string>>,
                 judge: Agent<Prompt, Reply<Verdict>>, files: map<string, string>)
      requires generator != validator && generator.Valid() && validator.Valid() && judge.Valid()
      ensures Valid() && this.files == files && log == [] && iteration == 1
      ensures this.generator == generator && this.validator == validator && this.judge == judge
    {
      this.generator := generator;
      this.validator := validator;
      this.judge := judge;
      this.files := files;
      log := [];
      iteration := 1;
    }

    /** What `host` keeps true of the agents and the files written since
        `start`: the generator only ever got the task prompt, the validator
        only requests about `language`, the Judge only approved code, and
        only `name` was written, with approved code. */
    ghost predicate Kept(prompt: string, language: string, start: map<string, string>, written: map<string, string>, name: string)
      reads generator, validator, judge
    {
      && AllAre(generator.inbox, GenerateRequest(language, prompt))
      && ValidationRequests(validator.inbox, language)
      && Vetted(judge.inbox, validator.inbox, validator.answered, language)
      && OnlyWrote(start, written, name)
      && (written != start ==> name in written && Approves(validator.inbox, validator.answered, language, written[name]))
    }

    /** Total replies the scripted agents still hold; every pass that does not
        return consumes some. */
    ghost function Remaining(): nat
      reads generator, validator, judge
    {
      |generator.script| + |validator.script| + |judge.script|
    }

    /** Step 1 of a pass: ask the generator for code. */
    method Draft(prompt: string, language: string, ghost start: map<string, string>, name: string)
      returns (a: Answer<string>)
      requires Valid() && Kept(prompt, language, start, files, name)
      modifies generator
      ensures Valid() && Kept(prompt, language, start, files, name)
      ensures a == Retry(old(generator.script)).answer
      ensures a.Stalled? ==> generator.script == []
      ensures !a.Stalled? ==> |generator.script| < |old(generator.script)|
      ensures a.Faulted? ==> EndedInFault(generator)
    {
      ghost var inbox, answered, script := generator.inbox, generator.answered, generator.script;
      a := Ask(generator, GenerateRequest(language, prompt));
      RetryEffect(script, GenerateRequest(language, prompt), inbox, answered, generator.inbox, generator.answered, generator.script);
    }

    /** Step 2 of a pass: ask the validator about `code`. An approval is
        recorded in its history. */
    method Review(prompt: string, language: string, code: string, ghost start: map<string, string>, name: string)
      returns (a: Answer<string>)
      requires Valid() && Kept(prompt, language, start, files, name)
      modifies validator
      ensures Valid() && Kept(prompt, language, start, files, name)
      ensures a == Retry(old(validator.script)).answer
      ensures a.Stalled? ==> validator.script == []
      ensures !a.Stalled? ==> |validator.script| < |old(validator.script)|
      ensures a.Faulted? ==> EndedInFault(validator)
      ensures a.Answered? && Affirms(a.value) ==> Approves(validator.inbox, validator.answered, language, code)
    {
      ghost var inbox, answered, script := validator.inbox, validator.answered, validator.script;
      a := Ask(validator, ValidateRequest(language, code));
      RetryEffect(script, ValidateRequest(language, code), inbox, answered, validator.inbox, validator.answered, validator.script);
      VettedGrows(judge.inbox, inbox, answered, validator.inbox, validator.answered, language);
      if files != start {
        ApprovesKept(inbox, answered, validator.inbox, validator.answered, language, files[name]);
      }
      if a.Answered? && Affirms(a.value) {
        assert ApprovedAt(validator.inbox, validator.answered, language, code, |validator.inbox| - 1);
      }
    }

    /** Step 3 of a pass: ask the Judge about validated code. */
    method Assess(prompt: string, language: string, code: string, ghost start: map<string, string>, name: string)
      returns (a: Answer<(string, string)>)
      requires Valid() && Kept(prompt, language, start, files, name)
      requires Approves(validator.inbox, validator.answered, language, code)
      modifies judge
      ensures Valid() && Kept(prompt, language, start, files, name)
      ensures a == Judgment(old(judge.script)).answer
      ensures a.Stalled? ==> judge.script == []
      ensures !a.Stalled? ==> |judge.script| < |old(judge.script)|
      ensures a.Faulted? ==> JudgeFaulted(judge)
      ensures a.Answered? ==>
        && judge.inbox != [] && Last(judge.inbox) == JudgeRequest(code)
        && Last(judge.answered).Ok? && Last(judge.answered).value.Parsed?
        && a.value == Reading(Last(judge.answered).value)
      // the history gains an accepting reply exactly when the answer accepts, and then only the last one
      ensures Unaccepted(judge.answered) <==> Unaccepted(old(judge.answered)) && !(a.Answered? && Accepts(a.value.0))
      ensures Unaccepted(old(judge.answered)) && a.Answered? && Accepts(a.value.0) ==> AcceptedLast(judge.answered)
    {
      ghost var inbox, answered, script := judge.inbox, judge.answered, judge.script;
      a := AskJudge(judge, JudgeRequest(code));
      ghost var n := Judgment(script).consumed;
      VettedExtend(inbox, code, n, validator.inbox, validator.answered, language);
      JudgedAccepting(script, answered, judge.answered);
      if !a.Stalled? {
        RepeatSpec(JudgeRequest(code), n);
        assert Last(judge.answered) == script[n - 1];
        assert Last(judge.inbox) == Repeat(JudgeRequest(code), n)[n - 1];
      }
    }

    /** What `host` returns from inside a pass, checked against the agents'
        histories: a Judge "yes" about approved code that was saved to
        `name`, or a role-tagged fault, or a script that ran out. */
    ghost predicate Returned(outcome: Outcome, language: string, name: string, written: map<string, string>)
      reads generator, validator, judge
    {
      match outcome
      case Unbound => false
      case Stuck => generator.script == [] || validator.script == [] || judge.script == []
      case Finished(status, result, explanation) =>
        if status == "yes" then
          && judge.answered != [] && Last(judge.answered).Ok? && Last(judge.answered).value.Parsed?
          && Accepts(Reading(Last(judge.answered).value).0)
          && explanation == Reading(Last(judge.answered).value).1
          && judge.inbox != [] && Last(judge.inbox) == JudgeRequest(result)
          && Approves(validator.inbox, validator.answered, language, result)
          && name in written && written[name] == result
        else
          && status == "no" && result == ""
          && (explanation == Fault("1") ==> EndedInFault(generator))
          && (explanation == Fault("2") ==> EndedInFault(validator))
          && (explanation == Fault("3") ==> JudgeFaulted(judge))
          && (explanation == Fault("1") || explanation == Fault("2") || explanation == Fault("3"))
    }

    /** One pass of the `host` loop: generate, then validate, save and
        judge. A rejection or a Judge "no" logs two entries and moves to the
        next iteration; any other end of the pass is what `host` returns. */
    method Pass(prompt: string, language: string, ghost start: map<string, string>, name: string)
      returns (step: Step, code: Option<string>)
      requires Valid() && Kept(prompt, language, start, files, name)
      requires iteration >= 1 && |log| == 2 * (iteration - 1) && Shaped(log)
      modifies this, generator, validator, judge
      ensures Valid() && Kept(prompt, language, start, files, name)
      ensures Shaped(log) && old(log) <= log
      ensures step.Return? ==> iteration == old(iteration) && |log| <= |old(log)| + 2
      ensures step.Return? ==> Returned(step.outcome, language, name, files)
      ensures !step.Return? ==>
        && iteration == old(iteration) + 1 && |log| == 2 * (iteration - 1) && code.Some?
        && log[|log| - 2].body == Generated(code.value)
        && Remaining() < old(Remaining())
      // the code is what the generator's answer parses to
      ensures var g := Retry(old(generator.script)).answer;
        && (code.Some? <==> g.Answered?)
        && (code.Some? ==> code.value == ParseCode(Strip(g.value)))
        && (g.Stalled? ==> step == Return(Stuck))
        && (g.Faulted? ==> step == Return(Finished("no", "", Fault("1"))))
      ensures Unaccepted(judge.answered) <==> Unaccepted(old(judge.answered)) && !(step.Return? && Succeeded(step.outcome))
      ensures Unaccepted(old(judge.answered)) && step.Return? && Succeeded(step.outcome) ==> AcceptedLast(judge.answered)
    {
      MessagesDistinct();
      var g := Draft(prompt, language, start, name);
      if g.Stalled? {
        return Return(Stuck), None;
      }
      if g.Faulted? {
        return Return(Finished("no", "", Fault("1"))), None;
      }
      var refined := ParseCode(Strip(g.value));
      code := Some(refined);
      ShapedPass(log, iteration, refined, ValidationFailed);
      ShapedPass(log, iteration, refined, Saved);
      log := log + [Entry(iteration, Generated(refined))];
      step := Vet(prompt, language, start, name, refined);
    }

    /** Steps 2 and 3 of a pass, after the generated `code` was logged. */
    method Vet(prompt: string, language: string, ghost start: map<string, string>, name: string, code: string)
      returns (step: Step)
      requires Valid() && Kept(prompt, language, start, files, name)
      modifies this, validator, judge
      ensures Valid() && Kept(prompt, language, start, files, name)
      ensures step.Return? ==> iteration == old(iteration) && (log == old(log) || log == old(log) + [Entry(iteration, Saved)])
      ensures step.Return? ==> Returned(step.outcome, language, name, files)
      ensures !step.Return? ==>
        && iteration == old(iteration) + 1
        && (log == old(log) + [Entry(old(iteration), ValidationFailed)] || log == old(log) + [Entry(old(iteration), Saved)])
        && |validator.script| < old(|validator.script|) && |judge.script| <= old(|judge.script|)
      // a rejection is exactly a validator answer without "yes"
      ensures var v := Retry(old(validator.script)).answer;
        && (step == Rejected <==> v.Answered? && !Affirms(v.value))
        && (v.Stalled? ==> step == Return(Stuck))
        && (v.Faulted? ==> step == Return(Finished("no", "", Fault("2"))))
      ensures step == Rejected ==> log == old(log) + [Entry(old(iteration), ValidationFailed)]
      ensures Unaccepted(judge.answered) <==> Unaccepted(old(judge.answered)) && !(step.Return? && Succeeded(step.outcome))
      ensures Unaccepted(old(judge.answered)) && step.Return? && Succeeded(step.outcome) ==> AcceptedLast(judge.answered)
    {
      MessagesDistinct();
      var v := Review(prompt, language, code, start, name);
      if v.Stalled? {
        return Return(Stuck);
      }
      if v.Faulted? {
        return Return(Finished("no", "", Fault("2")));
      }
      if !Affirms(v.value) {
        log := log + [Entry(iteration, ValidationFailed)];
        iteration := iteration + 1;
        return Rejected;
      }
      step := Conclude(prompt, language, start, name, code);
    }

    /** Step 3 of a pass: save validated code and ask the Judge about it. */
    method Conclude(prompt: string, language: string, ghost start: map<string, string>, name: string, code: string)
      returns (step: Step)
      requires Valid() && Kept(prompt, language, start, files, name)
      requires Approves(validator.inbox, validator.answered, language, code)
      modifies this, judge
      ensures Valid() && Kept(prompt, language, start, files, name)
      ensures log == old(log) + [Entry(old(iteration), Saved)]
      ensures step.Return? ==> iteration == old(iteration)
      ensures step.Return? ==> Returned(step.outcome, language, name, files)
      ensures step == Rejected ==> false
      ensures step.Declined? ==> iteration == old(iteration) + 1 && |judge.script| < old(|judge.script|)
      // the step is decided by the Judge loop's answer
      ensures var j := Judgment(old(judge.script)).answer;
        && (j.Answered? && Accepts(j.value.0) ==> step == Return(Finished("yes", code, j.value.1)))
        && (step.Declined? <==> j.Answered? && !Accepts(j.value.0))
        && (j.Faulted? <==> step == Return(Finished("no", "", Fault("3"))))
        && (j.Stalled? <==> step == Return(Stuck))
      ensures Unaccepted(judge.answered) <==> Unaccepted(old(judge.answered)) && !(step.Return? && Succeeded(step.outcome))
      ensures Unaccepted(old(judge.answered)) && step.Return? && Succeeded(step.outcome) ==> AcceptedLast(judge.answered)
    {
      MessagesDistinct();
      files := files[name := code];
      log := log + [Entry(iteration, Saved)];
      var j := Assess(prompt, language, code, start, name);
      if j.Stalled? {
        return Return(Stuck);
      }
      if j.Faulted? {
        return Return(Finished("no", "", Fault("3")));
      }
      var (decision, explanation) := j.value;
      if Accepts(decision) {
        return Return(Finished("yes", code, explanation));
      }
      iteration := iteration + 1;
      return Declined;
    }

    /** `host`: every pass that does not return consumes one iteration, on a
        validator rejection as well as after a Judge "no". */
    method Host(prompt: string, language: string, samples: seq<Sample>, maxIterations: int) returns (r: Outcome)
      requires Valid()
      requires generator.inbox == [] && validator.inbox == [] && judge.inbox == []
      modifies this, generator, validator, judge
      ensures Valid()
      // the log: one generated entry per pass, then failure or "saved"
      ensures Shaped(log)
      ensures maxIterations >= 0 ==> |log| <= 2 * maxIterations
      // the loop runs at all exactly when the budget admits iteration 1
      ensures r == Unbound <==> !InBudget(1, maxIterations)
      ensures r == Unbound ==> log == [] && files == old(files)
      // exhaustion: all K passes were used, the last generated code is returned
      ensures r.Finished? && r.status == "no" && r.explanation == EXHAUSTED ==>
        && maxIterations >= 1
        && |log| == 2 * maxIterations && log[|log| - 2].body == Generated(r.code)
      ensures maxIterations == -1 ==> r != Unbound && !(r.Finished? && r.status == "no" && r.explanation == EXHAUSTED)
      // acceptance: the Judge's last reply said "yes" about approved, saved code
      ensures r.Finished? && r.status == "yes" ==>
        && judge.answered != [] && Last(judge.answered).Ok? && Last(judge.answered).value.Parsed?
        && Accepts(Reading(Last(judge.answered).value).0)
        && r.explanation == Reading(Last(judge.answered).value).1
        && judge.inbox != [] && Last(judge.inbox) == JudgeRequest(r.code)
        && Approves(validator.inbox, validator.answered, language, r.code)
        && Naming.TaskFile(Naming.Extension(language)) in files
        && files[Naming.TaskFile(Naming.Extension(language))] == r.code
      // faults: role-tagged, no code returned
      ensures r.Finished? && r.status != "yes" && r.explanation != EXHAUSTED ==>
        && r.status == "no" && r.code == ""
        && (r.explanation == Fault("1") || r.explanation == Fault("2") || r.explanation == Fault("3"))
      ensures r == Finished("no", "", Fault("1")) ==> EndedInFault(generator)
      ensures r == Finished("no", "", Fault("2")) ==> EndedInFault(validator)
      ensures r == Finished("no", "", Fault("3")) ==> JudgeFaulted(judge)
      ensures r == Stuck ==> generator.script == [] || validator.script == [] || judge.script == []
      // "yes" exactly when a Judge reply accepted, and the run stopped at the first such reply
      ensures Succeeded(r) <==> !Unaccepted(judge.answered)
      ensures Succeeded(r) ==> AcceptedLast(judge.answered)
      // what each agent was sent, and what was written
      ensures Kept(prompt, language, old(files), files, Naming.TaskFile(Naming.Extension(language)))
    {
      MessagesDistinct();
      log := [];
      iteration := 1;
      var name := Naming.TaskFile(Naming.Extension(language));
      var refined: Option<string> := None;
      ghost var start := files;
      while InBudget(iteration, maxIterations)
        invariant Valid() && Kept(prompt, language, start, files, name)
        invariant 1 <= iteration && |log| == 2 * (iteration - 1) && Shaped(log)
        invariant maxIterations >= 0 ==> iteration <= maxIterations + 1
        invariant iteration == 1 || InBudget(iteration - 1, maxIterations)
        invariant refined.None? <==> iteration == 1
        invariant refined.None? ==> files == start
        invariant refined.Some? ==> log[|log| - 2].body == Generated(refined.value)
        invariant Unaccepted(judge.answered)
        decreases Remaining()
      {
        var step, code := Pass(prompt, language, start, name);
        if step.Return? {
          return step.outcome;
        }
        refined := code;
      }
      if refined.None? {
        return Unbound;
      }
      return Finished("no", refined.value, EXHAUSTED);
    }
  }
}
