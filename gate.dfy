/** The sample validator loop of the beta host as a function of the
    validator's replies: how many it consumes, what is left of the counter,
    and how the loop ends. */
module SampleGate {
  import opened Text
  import opened Oracle
  import opened Workflow

  /** A sample validator reply that approves: a text with "yes" in it. */
  predicate Approving(r: Reply<string>) {
    r.Ok? && Affirms(r.value)
  }

  /** A sample validator reply that rejects: a text without "yes". */
  predicate Rejecting(r: Reply<string>) {
    r.Ok? && !Affirms(r.value)
  }

  function CountRejecting(rs: seq<Reply<string>>): nat {
    if rs == [] then 0 else (if Rejecting(rs[0]) then 1 else 0) + CountRejecting(rs[1..])
  }

  lemma {:induction false} CountRejectingAppend(a: seq<Reply<string>>, b: seq<Reply<string>>)
    ensures CountRejecting(a + b) == CountRejecting(a) + CountRejecting(b)
    decreases |a|
  {
    if a == [] {
      assert a + b == b;
    } else {
      assert (a + b)[1..] == a[1..] + b;
      CountRejectingAppend(a[1..], b);
    }
  }

  /** How the sample validator loop ends: the replies it consumed, the
      counter it leaves, and the early return from `host`, if any. */
  datatype Screen = Screen(consumed: nat, left: nat, exit: Option<Outcome>)

  /** The same end, one reply later. */
  function Later(s: Screen): Screen {
    Screen(s.consumed + 1, s.left, s.exit)
  }

  /** The sample validator loop as a function of the validator's script and
      the counter, one reply at a time: while the counter is positive, a
      rate-limit error repeats the call, any other error ends `host`, a reply
      without "yes" costs one from the counter and repeats the call, and a
      reply with "yes" ends the loop with the counter kept. */
  function Screening(script: seq<Reply<string>>, counter: nat): (s: Screen)
    ensures s.consumed <= |script| && s.left <= counter
    decreases |script|
  {
    if counter == 0 then Screen(0, 0, None)
    else if script == [] then Screen(0, counter, Some(Stuck))
    else if IsRateLimited(script[0]) then Later(Screening(script[1..], counter))
    else if script[0].Err? then Screen(1, counter, Some(Finished("no", "", Fault("2"))))
    else if Affirms(script[0].value) then Screen(1, counter, None)
    else Later(Screening(script[1..], counter - 1))
  }

  /** One call under the retry policy, as the loop makes it: what `Retry`
      answers decides the loop, and a rejection leaves the rest of the loop
      to the replies after it. */
  lemma {:induction false} ScreeningCalls(script: seq<Reply<string>>, counter: nat)
    requires counter > 0
    ensures var a := Retry(script);
      var s := Screening(script, counter);
      match a.answer
      case Stalled => s == Screen(a.consumed, counter, Some(Stuck))
      case Faulted => s == Screen(a.consumed, counter, Some(Finished("no", "", Fault("2"))))
      case Answered(text) =>
        if Affirms(text) then s == Screen(a.consumed, counter, None)
        else
          var rest := Screening(script[a.consumed..], counter - 1);
          s == Screen(a.consumed + rest.consumed, rest.left, rest.exit)
    decreases |script|
  {
    if script != [] && IsRateLimited(script[0]) {
      ScreeningCalls(script[1..], counter);
      var c := Retry(script[1..]).consumed;
      assert script[1..][c..] == script[c + 1..];
    }
  }

  /** Every unit the counter lost is a reply without "yes" among those the
      loop consumed. */
  lemma {:induction false} ScreeningCounts(script: seq<Reply<string>>, counter: nat)
    ensures var s := Screening(script, counter);
      CountRejecting(script[..s.consumed]) == counter - s.left
    decreases |script|
  {
    var s := Screening(script, counter);
    if counter > 0 && script != [] && (IsRateLimited(script[0]) || (script[0].Ok? && !Affirms(script[0].value))) {
      var rest := Screening(script[1..], if IsRateLimited(script[0]) then counter else counter - 1);
      ScreeningCounts(script[1..], if IsRateLimited(script[0]) then counter else counter - 1);
      assert script[..s.consumed][1..] == script[1..][..rest.consumed];
    } else if s.consumed == 1 {
      assert script[..1][1..] == [];
    }
  }

  /** No reply before the last one the loop consumed approved. */
  lemma {:induction false} ScreeningStops(script: seq<Reply<string>>, counter: nat)
    ensures var s := Screening(script, counter);
      forall k :: 0 <= k < s.consumed - 1 ==> !Approving(script[k])
    decreases |script|
  {
    if counter > 0 && script != [] && (IsRateLimited(script[0]) || (script[0].Ok? && !Affirms(script[0].value))) {
      ScreeningStops(script[1..], if IsRateLimited(script[0]) then counter else counter - 1);
      assert forall k :: 1 <= k < |script| ==> script[k] == script[1..][k - 1];
    }
  }

  /** The loop ends normally with counter to spare exactly when the last
      reply it consumed approved. */
  lemma {:induction false} ScreeningEnds(script: seq<Reply<string>>, counter: nat)
    ensures var s := Screening(script, counter);
      s.exit.None? && s.left > 0 <==> s.consumed > 0 && Approving(script[s.consumed - 1])
    decreases |script|
  {
    if counter > 0 && script != [] && (IsRateLimited(script[0]) || (script[0].Ok? && !Affirms(script[0].value))) {
      var rest := Screening(script[1..], if IsRateLimited(script[0]) then counter else counter - 1);
      ScreeningEnds(script[1..], if IsRateLimited(script[0]) then counter else counter - 1);
      if rest.consumed > 0 {
        assert script[rest.consumed] == script[1..][rest.consumed - 1];
      }
    }
  }
}
