/** The latency estimates of a streamed response, in whole nanoseconds. */
module Latency {
  import opened Wrappers

  ghost predicate NonDecreasing(times: seq<int>) {
    forall i | 0 < i < |times| :: times[i - 1] <= times[i]
  }

  /** The time from the start to the first token seen after it: a token at the very start is passed over. */
  function TimeToFirstToken(start: int, times: seq<int>): int {
    if times == [] then 0
    else if times[0] != start then times[0] - start
    else TimeToFirstToken(start, times[1..])
  }

  method RecordTokens(start: int, times: seq<int>) returns (firstTokenTime: int, tokenTimestamps: seq<int>)
    ensures tokenTimestamps == times
    ensures firstTokenTime == TimeToFirstToken(start, times)
    ensures firstTokenTime == 0 ==> forall t <- times :: t == start
    ensures firstTokenTime != 0 ==>
              exists k | 0 <= k < |times| ::
                firstTokenTime == times[k] - start && forall j | 0 <= j < k :: times[j] == start
  {
    firstTokenTime, tokenTimestamps := 0, [];
    for i := 0 to |times|
      invariant tokenTimestamps == times[..i]
      invariant firstTokenTime == 0 ==> forall j | 0 <= j < i :: times[j] == start
      invariant firstTokenTime != 0 ==>
                  exists k | 0 <= k < i ::
                    firstTokenTime == times[k] - start && forall j | 0 <= j < k :: times[j] == start
      invariant TimeToFirstToken(start, times) ==
                if firstTokenTime == 0 then TimeToFirstToken(start, times[i..]) else firstTokenTime
    {
      var now := times[i];
      assert times[i..][0] == now && times[i..][1..] == times[i + 1..];
      if firstTokenTime == 0 {
        firstTokenTime := now - start;
      }
      tokenTimestamps := tokenTimestamps + [now];
    }
    assert times[..|times|] == times;
  }

  /**
   The average gap between tokens: the gaps add up to the time between the first and the last token, and
   their average is truncated to whole nanoseconds.
   */
  method AverageGap(times: seq<int>) returns (average: int)
    requires |times| > 1 && NonDecreasing(times)
    ensures average >= 0
    ensures average * (|times| - 1) <= times[|times| - 1] - times[0] < (average + 1) * (|times| - 1)
  {
    var total := 0;
    for i := 1 to |times|
      invariant total == times[i - 1] - times[0] >= 0
    {
      total := total + (times[i] - times[i - 1]);
    }
    var gaps := |times| - 1;
    average := total / gaps;
    Truncates(total, gaps);
  }

  /** Such an average lies between any bounds that all gaps lie between. */
  lemma AverageWithinBounds(times: seq<int>, average: int, low: int, high: int)
    requires |times| > 1
    requires average * (|times| - 1) <= times[|times| - 1] - times[0] < (average + 1) * (|times| - 1)
    requires forall i | 0 < i < |times| :: low <= times[i] - times[i - 1] <= high
    ensures low <= average <= high
  {
    var gaps := |times| - 1;
    SpanBetween(times, low, high, gaps);
    Cancelled(low, average + 1, gaps);
    assert (high + 1) * gaps == high * gaps + gaps;
    Cancelled(average, high + 1, gaps);
  }

  lemma Truncates(total: int, gaps: int)
    requires total >= 0 && gaps > 0
    ensures total / gaps >= 0
    ensures (total / gaps) * gaps <= total < (total / gaps + 1) * gaps
  {
    assert total == (total / gaps) * gaps + total % gaps;
  }

  lemma Cancelled(a: int, b: int, n: nat)
    requires a * n < b * n
    ensures a < b
  {
    if a >= b {
      ScaledUp(b, a, n);
    }
  }

  lemma ScaledUp(a: int, b: int, n: nat)
    requires a <= b
    ensures a * n <= b * n
  {}

  lemma {:induction false} SpanBetween(times: seq<int>, low: int, high: int, n: nat)
    requires n < |times|
    requires forall i | 0 < i < |times| :: low <= times[i] - times[i - 1] <= high
    ensures low * n <= times[n] - times[0] <= high * n
  {
    if n > 0 {
      SpanBetween(times, low, high, n - 1);
      assert low * n == low * (n - 1) + low && high * n == high * (n - 1) + high;
    }
  }

  /**
   What an estimate that is first + average * (tokens - 1) is worth against the observed span, scaled to
   the tokens.
   */
  ghost predicate ScalesSpan(estimate: int, span: int, gaps: nat, steps: nat) {
    && estimate * gaps <= span * steps
    && (steps > 0 ==> span * steps < (estimate + steps) * gaps)
  }

  lemma AverageScales(average: int, span: int, gaps: nat, steps: nat)
    requires average * gaps <= span < (average + 1) * gaps
    ensures ScalesSpan(average * steps, span, gaps, steps)
  {
    ScaledUp(average * gaps, span, steps);
    assert average * gaps * steps == average * steps * gaps;
    if steps > 0 {
      ScaledUp(span + 1, (average + 1) * gaps, steps);
      assert (average + 1) * gaps * steps == (average * steps + steps) * gaps;
      assert (span + 1) * steps == span * steps + steps;
    }
  }

  /**
   The duration estimated for the server, if a token came after the start. It is the time to that token and
   then the observed span from the first to the last, scaled to the number of output tokens and rounded down
   by less than one nanosecond a token.
   */
  method EstimateServerDuration(start: int, times: seq<int>, reported: nat) returns (duration: Option<int>)
    requires NonDecreasing(times)
    requires times != [] ==> start <= times[0]
    ensures duration.Some? <==> exists t <- times :: t != start
    ensures |times| == 1 && duration.Some? ==> duration.value == times[0] - start
    ensures |times| > 1 && duration.Some? ==>
              var tokens := if reported == 0 then |times| else reported;
              ScalesSpan(duration.value - TimeToFirstToken(start, times), times[|times| - 1] - times[0],
                         |times| - 1, if tokens > 1 then tokens - 1 else 0)
  {
    var firstTokenTime, tokenTimestamps := RecordTokens(start, times);
    FirstTokenAfterStart(start, times);
    var average := 0;
    if |tokenTimestamps| > 1 {
      average := AverageGap(tokenTimestamps);
    }
    if firstTokenTime <= 0 {
      return None;
    }
    var outputTokens := reported;
    if outputTokens == 0 {
      outputTokens := |tokenTimestamps|;
    }
    ghost var steps := if outputTokens > 1 then outputTokens - 1 else 0;
    if |times| > 1 {
      AverageScales(average, times[|times| - 1] - times[0], |times| - 1, steps);
    }
    if average > 0 && outputTokens > 1 {
      duration := Some(firstTokenTime + average * (outputTokens - 1));
    } else {
      duration := Some(firstTokenTime);
      assert average * steps == 0;
    }
  }

  lemma {:induction false} FirstTokenAfterStart(start: int, times: seq<int>)
    requires NonDecreasing(times)
    requires times != [] ==> start <= times[0]
    ensures TimeToFirstToken(start, times) >= 0
    ensures TimeToFirstToken(start, times) > 0 <==> exists t <- times :: t != start
  {
    if times != [] {
      assert times[0] in times;
      if times[0] == start {
        var rest := times[1..];
        assert forall i | 0 < i < |rest| :: rest[i - 1] == times[i] && rest[i] == times[i + 1];
        assert rest != [] ==> times[0] <= times[1] == rest[0];
        assert times == [start] + rest;
        FirstTokenAfterStart(start, rest);
        assert forall t <- rest :: t in times;
        assert forall t <- times :: t == start || t in rest;
      }
    }
  }

  /**
   With as many output tokens as timestamps, the first of them after the start, the estimate never exceeds
   the time to the last token, and falls short of it by less than a nanosecond a gap.
   */
  lemma EstimateWithinResponse(start: int, times: seq<int>, duration: int)
    requires |times| > 1 && start < times[0]
    requires ScalesSpan(duration - TimeToFirstToken(start, times), times[|times| - 1] - times[0], |times| - 1,
        |times| - 1)
    ensures duration <= times[|times| - 1] - start < duration + |times| - 1
  {
    var gaps := |times| - 1;
    var estimate, span := duration - TimeToFirstToken(start, times), times[gaps] - times[0];
    Cancelled(span, estimate + gaps, gaps);
    assert (span + 1) * gaps == span * gaps + gaps;
    Cancelled(estimate, span + 1, gaps);
  }
}
