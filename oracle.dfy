/** Scripted stand-ins for the chat sessions both hosts talk to, and the
    retry policy they wrap around every call: an error whose text holds "429"
    is retried without a cap, any other error ends the run, a text reply is
    handed back. */
module Oracle {
  import opened Text

  datatype Option<T> = None | Some(value: T) {
    function GetOr(default: T): T {
      if Some? then value else default
    }
  }

  /** What one `send_message` call does: return a reply, or raise an
      exception whose text is `message`. */
  datatype Reply<T> = Ok(value: T) | Err(message: string)

  /** The Judge's reply after `json.loads`: a decoded object whose
      "response" and "explanation" keys may be missing; a decoded value the
      hosts cannot read (not an object, or a "response" that is not a
      string, so that `.get` or `.lower()` raises); or a decoding failure. */
  datatype Verdict = Parsed(response: Option<string>, explanation: Option<string>) | Unreadable | DecodeError

  /** The test `'429' in str(e)` both hosts apply to a caught exception. */
  predicate IsRateLimited<T>(r: Reply<T>) {
    r.Err? && Contains(r.message, "429")
  }

  /** What a call wrapped in the retry policy ends with. `Stalled` means the
      script ran out, which the real service never does. */
  datatype Answer<T> = Answered(value: T) | Faulted | Stalled

  /** The run of `Retry` over a script: how many replies it consumes and what it returns. */
  datatype Attempts<T> = Attempts(consumed: nat, answer: Answer<T>)

  /** The retry policy as a function of the replies the agent will give: skip
      rate-limit errors, stop at the first other reply. */
  function Retry<T>(script: seq<Reply<T>>): (a: Attempts<T>)
    ensures a.consumed <= |script|
    ensures a.answer.Stalled? ==> a.consumed == |script|
    ensures a.answer.Answered? ==> a.consumed >= 1 && script[a.consumed - 1] == Ok(a.answer.value)
    ensures a.answer.Faulted? ==> a.consumed >= 1 && script[a.consumed - 1].Err? && !IsRateLimited(script[a.consumed - 1])
  {
    if script == [] then Attempts(0, Stalled)
    else if IsRateLimited(script[0]) then
      var rest := Retry(script[1..]);
      Attempts(rest.consumed + 1, rest.answer)
    else if script[0].Ok? then Attempts(1, Answered(script[0].value))
    else Attempts(1, Faulted)
  }

  /** Every reply the policy skipped was a rate-limit error, and it runs out
      of replies exactly when all of them are rate-limit errors. */
  lemma {:induction false} RetrySkips<T>(script: seq<Reply<T>>)
    ensures var a := Retry(script);
      && (forall k :: 0 <= k < a.consumed - 1 ==> IsRateLimited(script[k]))
      && (a.answer.Stalled? <==> forall k :: 0 <= k < |script| ==> IsRateLimited(script[k]))
    decreases |script|
  {
    if script != [] && IsRateLimited(script[0]) {
      RetrySkips(script[1..]);
      assert forall k :: 1 <= k < |script| ==> script[k] == script[1..][k - 1];
    }
  }

  /** A script whose first `n` replies are rate-limit errors followed by `r`
      makes the policy consume exactly `n + 1` replies and decide on `r`. */
  lemma {:induction false} RetryAfterRateLimits<T>(script: seq<Reply<T>>, n: nat)
    requires n < |script| && !IsRateLimited(script[n])
    requires forall k :: 0 <= k < n ==> IsRateLimited(script[k])
    ensures Retry(script).consumed == n + 1
    ensures Retry(script).answer == if script[n].Ok? then Answered(script[n].value) else Faulted
  {
    if n > 0 {
      RetryAfterRateLimits(script[1..], n - 1);
    }
  }

  /** The Judge's verdict as the hosts read it: the lower-cased "response"
      (default "no") and the "explanation" (default ""). */
  function Reading(v: Verdict): (string, string)
    requires v.Parsed?
  {
    (Lower(v.response.GetOr("no")), v.explanation.GetOr(""))
  }

  /** The decision read has no upper-case letter; a missing "response" reads
      as "no" and a missing "explanation" as "". */
  lemma ReadingDefaults(v: Verdict)
    requires v.Parsed?
    ensures forall k :: 0 <= k < |Reading(v).0| ==> !('A' <= Reading(v).0[k] <= 'Z')
    ensures v.response.None? ==> Reading(v).0 == "no"
    ensures v.explanation.None? ==> Reading(v).1 == ""
  {
    LowerSpec(v.response.GetOr("no"));
  }

  /** A Judge reply that ends the run: an error without "429", or a decoded
      value whose reading raises (its message holds no "429" either). */
  predicate Fatal(r: Reply<Verdict>) {
    (r.Err? && !IsRateLimited(r)) || r == Ok(Unreadable)
  }

  /** The Judge loop of both hosts as a function of the Judge's script: a
      rate-limit error or an undecodable reply repeats the call, a readable
      reply is read, anything else ends the run. */
  function Judgment(script: seq<Reply<Verdict>>): (a: Attempts<(string, string)>)
    ensures a.consumed <= |script|
    ensures a.answer.Stalled? ==> a.consumed == |script|
    ensures a.answer.Answered? ==> a.consumed >= 1 && script[a.consumed - 1].Ok? && script[a.consumed - 1].value.Parsed?
                                   && a.answer.value == Reading(script[a.consumed - 1].value)
    ensures a.answer.Faulted? ==> a.consumed >= 1 && Fatal(script[a.consumed - 1])
  {
    if script == [] then Attempts(0, Stalled)
    else if IsRateLimited(script[0]) || script[0] == Ok(DecodeError) then
      var rest := Judgment(script[1..]);
      Attempts(rest.consumed + 1, rest.answer)
    else if script[0].Ok? && script[0].value.Parsed? then Attempts(1, Answered(Reading(script[0].value)))
    else Attempts(1, Faulted)
  }

  /** Every Judge reply skipped was a rate-limit error or undecodable, and
      the loop runs out of replies exactly when all of them are. */
  lemma {:induction false} JudgmentSkips(script: seq<Reply<Verdict>>)
    ensures var a := Judgment(script);
      && (forall k :: 0 <= k < a.consumed - 1 ==> IsRateLimited(script[k]) || script[k] == Ok(DecodeError))
      && (a.answer.Stalled? <==> forall k :: 0 <= k < |script| ==> IsRateLimited(script[k]) || script[k] == Ok(DecodeError))
    decreases |script|
  {
    if script != [] && (IsRateLimited(script[0]) || script[0] == Ok(DecodeError)) {
      JudgmentSkips(script[1..]);
      assert forall k :: 1 <= k < |script| ==> script[k] == script[1..][k - 1];
    }
  }

  /** `n` copies of `x`. */
  function Repeat<T>(x: T, n: nat): seq<T> {
    if n == 0 then [] else Repeat(x, n - 1) + [x]
  }

  /** `Repeat(x, n)` has length `n` and holds only `x`. */
  lemma {:induction false} RepeatSpec<T>(x: T, n: nat)
    ensures |Repeat(x, n)| == n && forall k :: 0 <= k < n ==> Repeat(x, n)[k] == x
  {
    if n > 0 {
      RepeatSpec(x, n - 1);
    }
  }

  /** A chat session driven by a script. `inbox` holds every message sent to
      it, `answered` the reply each of them got (in the same order), and
      `script` the replies still to come. */
  class Agent<M, R> {
    var inbox: seq<M>
    var answered: seq<R>
    var script: seq<R>

    ghost predicate Valid()
      reads this
    {
      |inbox| == |answered|
    }

    constructor (script: seq<R>)
      ensures Valid() && this.script == script && inbox == [] && answered == []
    {
      this.script := script;
      inbox := [];
      answered := [];
    }

    /** One `send_message` call: takes the next scripted reply, or reports
        that the script is exhausted and changes nothing. */
    method Send(m: M) returns (r: Option<R>)
      requires Valid()
      modifies this
      ensures Valid()
      ensures old(script) == [] ==> r == None && unchanged(this)
      ensures old(script) != [] ==>
        && r == Some(old(script)[0])
        && inbox == old(inbox) + [m]
        && answered == old(answered) + [old(script)[0]]
        && script == old(script)[1..]
    {
      if script == [] {
        r := None;
      } else {
        r := Some(script[0]);
        inbox := inbox + [m];
        answered := answered + [script[0]];
        script := script[1..];
      }
    }
  }

  /** The last call `a` answered raised an error other than a rate limit. */
  ghost predicate EndedInFault<M, T>(a: Agent<M, Reply<T>>)
    reads a
  {
    a.answered != [] && Last(a.answered).Err? && !IsRateLimited(Last(a.answered))
  }

  /** The last call the Judge `a` answered ended the run. */
  ghost predicate JudgeFaulted<M>(a: Agent<M, Reply<Verdict>>)
    reads a
  {
    a.answered != [] && Fatal(Last(a.answered))
  }

  /** What the retry policy leaves behind, in the form callers use: the
      histories only grow, every new message is `m`, the script shrinks
      unless it ran out, and the last reply explains the answer. */
  lemma RetryEffect<M, T>(script: seq<Reply<T>>, m: M, inbox0: seq<M>, answered0: seq<Reply<T>>,
                          inbox: seq<M>, answered: seq<Reply<T>>, rest: seq<Reply<T>>)
    requires var n := Retry(script).consumed;
      && rest == script[n..] && answered == answered0 + script[..n] && inbox == inbox0 + Repeat(m, n)
    ensures inbox0 <= inbox && answered0 <= answered
    ensures forall k :: |inbox0| <= k < |inbox| ==> inbox[k] == m
    ensures Retry(script).answer.Stalled? ==> rest == []
    ensures !Retry(script).answer.Stalled? ==> |rest| < |script|
    ensures Retry(script).answer.Faulted? ==> answered != [] && Last(answered).Err? && !IsRateLimited(Last(answered))
    ensures Retry(script).answer.Answered? ==>
      inbox != [] && Last(inbox) == m && Last(answered) == Ok(Retry(script).answer.value)
  {
    var n := Retry(script).consumed;
    RepeatSpec(m, n);
    if n > 0 {
      assert Last(answered) == script[n - 1];
    }
  }

  /** The retry loop of the stable host: the same message is re-sent after
      every rate-limit error. Its effect is exactly what `Retry` predicts. */
  method Ask<M, T>(agent: Agent<M, Reply<T>>, m: M) returns (a: Answer<T>)
    requires agent.Valid()
    modifies agent
    ensures agent.Valid()
    ensures a == Retry(old(agent.script)).answer
    ensures var n := Retry(old(agent.script)).consumed;
      && agent.script == old(agent.script)[n..]
      && agent.answered == old(agent.answered) + old(agent.script)[..n]
      && agent.inbox == old(agent.inbox) + Repeat(m, n)
  {
    ghost var n := 0;
    while true
      invariant agent.Valid()
      invariant n <= |old(agent.script)| && agent.script == old(agent.script)[n..]
      invariant agent.answered == old(agent.answered) + old(agent.script)[..n]
      invariant agent.inbox == old(agent.inbox) + Repeat(m, n)
      invariant Retry(old(agent.script)) == Attempts(n + Retry(agent.script).consumed, Retry(agent.script).answer)
      decreases |agent.script|
    {
      ghost var before := agent.script;
      var r := agent.Send(m);
      if r.None? {
        return Stalled;
      }
      assert old(agent.script)[..n + 1] == old(agent.script)[..n] + [before[0]];
      SnocAssoc(old(agent.answered), old(agent.script)[..n], before[0]);
      SnocAssoc(old(agent.inbox), Repeat(m, n), m);
      n := n + 1;
      var reply := r.value;
      if reply.Err? && Contains(reply.message, "429") {
        assert before[1..] == agent.script;
        continue;
      }
      return if reply.Ok? then Answered(reply.value) else Faulted;
    }
  }

  /** The Judge loop of the stable host: a rate-limit error or an
      undecodable reply repeats the same message, a readable reply is read,
      anything else ends the run. Its effect is exactly what `Judgment`
      predicts. */
  method AskJudge<M>(agent: Agent<M, Reply<Verdict>>, m: M) returns (a: Answer<(string, string)>)
    requires agent.Valid()
    modifies agent
    ensures agent.Valid()
    ensures a == Judgment(old(agent.script)).answer
    ensures var n := Judgment(old(agent.script)).consumed;
      && agent.script == old(agent.script)[n..]
      && agent.answered == old(agent.answered) + old(agent.script)[..n]
      && agent.inbox == old(agent.inbox) + Repeat(m, n)
  {
    ghost var n := 0;
    while true
      invariant agent.Valid()
      invariant n <= |old(agent.script)| && agent.script == old(agent.script)[n..]
      invariant agent.answered == old(agent.answered) + old(agent.script)[..n]
      invariant agent.inbox == old(agent.inbox) + Repeat(m, n)
      invariant Judgment(old(agent.script)) == Attempts(n + Judgment(agent.script).consumed, Judgment(agent.script).answer)
      decreases |agent.script|
    {
      ghost var before := agent.script;
      var r := agent.Send(m);
      if r.None? {
        return Stalled;
      }
      assert old(agent.script)[..n + 1] == old(agent.script)[..n] + [before[0]];
      SnocAssoc(old(agent.answered), old(agent.script)[..n], before[0]);
      SnocAssoc(old(agent.inbox), Repeat(m, n), m);
      n := n + 1;
      var reply := r.value;
      if (reply.Err? && Contains(reply.message, "429")) || reply == Ok(DecodeError) {
        assert before[1..] == agent.script;
        continue;
      }
      return if reply.Ok? && reply.value.Parsed? then Answered(Reading(reply.value)) else Faulted;
    }
  }
}
