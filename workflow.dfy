/** What the two hosts share: the result triple, the fixed messages, the
    fence test of `parse_code`, and the "yes" gates applied to replies. */
module Workflow {
  import opened Text
  import opened Oracle

  /** One input/expected-output pair of the run configuration. */
  datatype Sample = Sample(input: string, expectedOutput: string)

  /** How `host` ends. `Finished` is the `(status, code, explanation)` triple it
      returns. `Unbound` is the `UnboundLocalError` raised when the loop never
      ran and `refined_code` was never assigned. `Stuck` means a scripted agent
      ran out of replies, which the real service never does. */
  datatype Outcome = Finished(status: string, code: string, explanation: string) | Unbound | Stuck

  /** "Maximum iterations reached without achieving success." */
  const EXHAUSTED := "Maximum iterations " + "reached without " + "achieving success."

  /** The explanation returned when agent `n` fails with a non-rate-limit error. */
  function Fault(n: string): string {
    "Error communicating " + "with Agent " + n + "."
  }

  /** The exhaustion message is no fault message, and the three fault
      messages differ. */
  lemma MessagesDistinct()
    ensures forall n :: EXHAUSTED != Fault(n)
    ensures Fault("1") != Fault("2") && Fault("1") != Fault("3") && Fault("2") != Fault("3")
  {
    forall n ensures EXHAUSTED != Fault(n) {
      NotAFault(n);
    }
    FaultsDistinct();
  }

  lemma FaultsDistinct()
    ensures Fault("1") != Fault("2") && Fault("1") != Fault("3") && Fault("2") != Fault("3")
  {
    assert Fault("1")[31] != Fault("2")[31];
    assert Fault("1")[31] != Fault("3")[31];
    assert Fault("2")[31] != Fault("3")[31];
  }

  lemma NotAFault(n: string)
    ensures EXHAUSTED != Fault(n)
  {
    assert Fault(n)[0] == 'E';
  }

  /** The loop guard of both hosts: `iteration <= max_iterations or max_iterations == -1`. */
  predicate InBudget(iteration: int, maxIterations: int) {
    iteration <= maxIterations || maxIterations == -1
  }

  /** A validator reply counts as approval when "yes" occurs in its stripped,
      lower-cased text. */
  predicate Affirms(text: string) {
    Contains(Lower(Strip(text)), "yes")
  }

  /** The Judge accepts when "yes" occurs in its lower-cased "response". */
  predicate Accepts(decision: string) {
    Contains(decision, "yes")
  }

  /** A run that ends with status "yes". */
  predicate Succeeded(o: Outcome) {
    o.Finished? && o.status == "yes"
  }

  /** A Judge reply the hosts accept: readable, with "yes" in its
      lower-cased "response". */
  predicate Accepting(r: Reply<Verdict>) {
    r.Ok? && r.value.Parsed? && Accepts(Reading(r.value).0)
  }

  /** No Judge reply in `rs` is accepting. */
  predicate Unaccepted(rs: seq<Reply<Verdict>>) {
    forall k :: 0 <= k < |rs| ==> !Accepting(rs[k])
  }

  /** The last reply of `rs` is its only accepting one. */
  predicate AcceptedLast(rs: seq<Reply<Verdict>>) {
    rs != [] && Accepting(Last(rs)) && Unaccepted(rs[..|rs| - 1])
  }

  /** A history without an accepting reply is one whose two parts have none. */
  lemma UnacceptedAppend(a: seq<Reply<Verdict>>, b: seq<Reply<Verdict>>)
    ensures Unaccepted(a + b) <==> Unaccepted(a) && Unaccepted(b)
  {
    if Unaccepted(a + b) {
      forall k | 0 <= k < |a|
        ensures !Accepting(a[k])
      {
        assert a[k] == (a + b)[k];
      }
      forall k | 0 <= k < |b|
        ensures !Accepting(b[k])
      {
        assert b[k] == (a + b)[|a| + k];
      }
    }
  }

  /** The Judge loop skips no accepting reply, and it ends accepting exactly
      when the replies it consumed hold an accepting one. */
  lemma JudgmentAccepting(script: seq<Reply<Verdict>>)
    ensures var j := Judgment(script);
      && (j.consumed > 0 ==> Unaccepted(script[..j.consumed - 1]))
      && (Unaccepted(script[..j.consumed]) <==> !(j.answer.Answered? && Accepts(j.answer.value.0)))
  {
    var j := Judgment(script);
    JudgmentSkips(script);
    if j.consumed > 0 {
      var c := j.consumed;
      assert forall k :: 0 <= k < c - 1 ==> !Accepting(script[k]);
      assert script[..c] == script[..c - 1] + [script[c - 1]];
      UnacceptedAppend(script[..c - 1], [script[c - 1]]);
      if j.answer.Stalled? {
        assert IsRateLimited(script[c - 1]) || script[c - 1] == Ok(DecodeError);
      }
    }
  }

  /** A Judge history extended by the replies one Judge loop consumed
      gains an accepting reply exactly when the loop ends accepting, and
      then that reply is the last one. */
  lemma JudgedAccepting(script: seq<Reply<Verdict>>, answered0: seq<Reply<Verdict>>, answered: seq<Reply<Verdict>>)
    requires answered == answered0 + script[..Judgment(script).consumed]
    ensures var j := Judgment(script).answer;
      && (Unaccepted(answered) <==> Unaccepted(answered0) && !(j.Answered? && Accepts(j.value.0)))
      && (Unaccepted(answered0) && j.Answered? && Accepts(j.value.0) ==> AcceptedLast(answered))
  {
    var n := Judgment(script).consumed;
    JudgmentAccepting(script);
    UnacceptedAppend(answered0, script[..n]);
    if n > 0 {
      assert Last(answered) == script[n - 1];
      assert answered[..|answered| - 1] == answered0 + script[..n - 1];
      UnacceptedAppend(answered0, script[..n - 1]);
    }
  }

  /** Letter case does not change a validator's decision. */
  lemma AffirmsIgnoresCase(text: string)
    ensures Affirms(Lower(text)) <==> Affirms(text)
  {
    StripOfLower(text);
    LowerIdempotent(Strip(text));
  }

  lemma LowerIdempotent(s: string)
    ensures Lower(Lower(s)) == Lower(s)
  {
    var l := Lower(s);
    LowerSpec(s);
    LowerSpec(l);
    assert forall i :: 0 <= i < |l| ==> Lower(l)[i] == l[i];
  }

  /** Stripping commutes with lower-casing. */
  lemma StripOfLower(s: string)
    ensures Strip(Lower(s)) == Lower(Strip(s))
  {
    TrimStartOfLower(s);
    TrimEndOfLower(TrimStart(s));
  }

  lemma {:induction false} TrimStartOfLower(s: string)
    ensures TrimStart(Lower(s)) == Lower(TrimStart(s))
    decreases |s|
  {
    if s != [] && IsSpace(s[0]) {
      assert Lower(s)[1..] == Lower(s[1..]);
      TrimStartOfLower(s[1..]);
    }
  }

  lemma {:induction false} TrimEndOfLower(s: string)
    ensures TrimEnd(Lower(s)) == Lower(TrimEnd(s))
    decreases |s|
  {
    LowerSpec(s);
    if s != [] {
      LowerSpec(s[..|s| - 1]);
      assert Lower(s)[..|s| - 1] == Lower(s[..|s| - 1]);
    }
    if s != [] && IsSpace(s[|s| - 1]) {
      TrimEndOfLower(s[..|s| - 1]);
    }
  }

  /** A reply begins and ends with three backticks. */
  predicate Fenced(raw: string) {
    StartsWith(raw, "```") && EndsWith(raw, "```")
  }

  /** The fenced branch of `parse_code`: drop the first and the last line. */
  function Unfence(raw: string): string {
    JoinLines(Interior(SplitLines(raw)))
  }

  /** A code block as an agent writes it: an opening fence with an optional
      language tag, the code lines, and a closing fence on its own line. */
  function Fence(tag: string, lines: seq<string>): string {
    JoinLines(["```" + tag] + lines + ["```"])
  }

  /** Unfencing a code block gives back exactly its code lines. */
  lemma FenceRoundTrip(tag: string, lines: seq<string>)
    requires '\n' !in tag
    requires forall k :: 0 <= k < |lines| ==> '\n' !in lines[k]
    ensures Fenced(Fence(tag, lines))
    ensures Unfence(Fence(tag, lines)) == JoinLines(lines)
  {
    var all := ["```" + tag] + lines + ["```"];
    FenceLines(tag, lines);
    assert all[1..|all| - 1] == lines;
    FenceEnds(tag, lines);
  }

  lemma FenceLines(tag: string, lines: seq<string>)
    requires '\n' !in tag
    requires forall k :: 0 <= k < |lines| ==> '\n' !in lines[k]
    ensures SplitLines(Fence(tag, lines)) == ["```" + tag] + lines + ["```"]
  {
    var all := ["```" + tag] + lines + ["```"];
    forall k | 0 <= k < |all|
      ensures '\n' !in all[k]
    {
      if 0 < k < |all| - 1 {
        assert all[k] == lines[k - 1];
      }
    }
    SplitJoin(all);
  }

  lemma FenceEnds(tag: string, lines: seq<string>)
    ensures StartsWith(Fence(tag, lines), "```")
    ensures EndsWith(Fence(tag, lines), "```")
  {
    var first := ["```" + tag] + lines;
    var s := JoinLines(first + ["```"]);
    JoinSnoc(first, "```");
    assert s[|s| - 3..] == "```";
    if lines == [] {
      assert s == "```" + tag + "\n" + "```";
    } else {
      assert s == JoinLines(first) + "\n" + "```";
      assert JoinLines(first) == ("```" + tag) + "\n" + JoinLines(lines);
    }
    assert s[..3] == "```";
  }
}
