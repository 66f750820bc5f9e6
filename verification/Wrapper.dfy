/**
 The cron wrapper: how long it waits for the factory, and the escaping of the
 command it sends.
 */
module Wrapper {

  // -------------------------------------------------------------------- retry

  /** One answer of the factory. */
  datatype Response = Ready | NotReady | FactoryError | CallFailed

  datatype Outcome = Started | Fatal | GaveUp

  /** How often a factory that is never ready is asked. */
  function MaxAttempts(start: int, cap: int): (n: nat)
    ensures n >= 1
  {
    if start <= cap then (cap - start) / 2 + 2 else 1
  }

  /** The first answer that is not "not ready", among the first `n`. */
  function FirstDecisive(answer: nat -> Response, n: nat): (k: nat)
    ensures k <= n && (forall i | 0 <= i < k :: answer(i) == NotReady)
    ensures k < n ==> answer(k) != NotReady
  {
    if n == 0 then 0
    else
      var k := FirstDecisive(answer, n - 1);
      if k < n - 1 || answer(n - 1) != NotReady then k else n
  }

  function SleepTotal(sleeps: seq<int>): int {
    if sleeps == [] then 0 else SleepTotal(sleeps[..|sleeps| - 1]) + sleeps[|sleeps| - 1]
  }

  /** The sleeps grow by two seconds each. */
  predicate Growing(start: int, sleeps: seq<int>) {
    forall i | 0 <= i < |sleeps| :: sleeps[i] == start + 2 * i
  }

  lemma {:induction false} GrowingTotal(start: int, sleeps: seq<int>)
    requires Growing(start, sleeps)
    ensures SleepTotal(sleeps) == |sleeps| * start + |sleeps| * (|sleeps| - 1)
  {
    if sleeps != [] {
      var n := |sleeps| - 1;
      GrowingTotal(start, sleeps[..n]);
      assert (n + 1) * start == n * start + start;
      assert (n + 1) * n == n * (n - 1) + 2 * n;
    }
  }

  /** The request loop.  It asks until it gets a decisive answer or has asked
      `MaxAttempts` times, sleeping after every answer that is not decisive. */
  method RequestODP(start: int, cap: int, answer: nat -> Response)
    returns (outcome: Outcome, attempts: nat, sleeps: seq<int>)
    ensures var n := MaxAttempts(start, cap);
      var k := FirstDecisive(answer, n);
      && (outcome == GaveUp <==> k == n) && (outcome == Started <==> k < n && answer(k) == Ready)
      && attempts == (if k == n then n else k + 1) && |sleeps| == k
    ensures Growing(start, sleeps)
  {
    var sleepTime := start;
    sleeps, attempts := [], 0;
    while true
      invariant |sleeps| == attempts && attempts < MaxAttempts(start, cap)
      invariant sleepTime == start + 2 * attempts && Growing(start, sleeps)
      invariant forall i | 0 <= i < attempts :: answer(i) == NotReady
      decreases MaxAttempts(start, cap) - attempts
    {
      var resp := answer(attempts);
      DecisiveAt(answer, attempts, MaxAttempts(start, cap));
      attempts := attempts + 1;
      if resp == CallFailed || resp == FactoryError {
        return Fatal, attempts, sleeps;
      }
      if resp == Ready {
        return Started, attempts, sleeps;
      }
      sleeps := sleeps + [sleepTime];
      if sleepTime <= cap {
        sleepTime := sleepTime + 2;
      } else if sleepTime >= cap {
        return GaveUp, attempts, sleeps;
      }
    }
    assert false;
    outcome := GaveUp;
  }

  lemma DecisiveAt(answer: nat -> Response, k: nat, n: nat)
    requires k < n && forall i | 0 <= i < k :: answer(i) == NotReady
    ensures answer(k) != NotReady ==> FirstDecisive(answer, n) == k
    ensures answer(k) == NotReady && k + 1 == n ==> FirstDecisive(answer, n) == n
  {
  }

  /** Closed forms for a factory that never becomes ready: the time slept in
      all, and no single sleep of more than two seconds over the cap. */
  lemma NeverReadyBounds(start: int, cap: int, sleeps: seq<int>)
    requires Growing(start, sleeps) && |sleeps| == MaxAttempts(start, cap)
    ensures var n := MaxAttempts(start, cap); SleepTotal(sleeps) == n * start + n * (n - 1)
    ensures start <= cap ==> forall i | 0 <= i < |sleeps| :: sleeps[i] <= cap + 2
    ensures start <= cap ==> cap < sleeps[|sleeps| - 1]
  {
    GrowingTotal(start, sleeps);
  }

  // ------------------------------------------------------------------ escaping

  const ESCAPED_QUOTE := "\\\\\\\""

  /** `strings.Replace(command, "\"", "\\\\\\\"", -1)`. */
  function DelimitCommand(s: string): string {
    if s == "" then ""
    else (if s[0] == '"' then ESCAPED_QUOTE else [s[0]]) + DelimitCommand(s[1..])
  }

  /** The reverse replacement, leftmost match first. */
  function Undelimit(s: string): string {
    if s == "" then ""
    else if ESCAPED_QUOTE <= s then "\"" + Undelimit(s[|ESCAPED_QUOTE|..])
    else [s[0]] + Undelimit(s[1..])
  }

  /** A quote becomes three backslashes and a quote; what is around it stays. */
  lemma {:induction false} OneQuoteEscaped(before: string, after: string)
    requires '"' !in before && '"' !in after
    ensures DelimitCommand(before + ['"'] + after) == before + ['\\', '\\', '\\', '"'] + after
  {
    var s := before + ['"'] + after;
    if before == [] {
      assert s[1..] == after;
      NoQuoteUnchanged(after);
    } else {
      assert s[1..] == before[1..] + ['"'] + after && s[0] == before[0];
      OneQuoteEscaped(before[1..], after);
      var rest := ['\\', '\\', '\\', '"'] + after;
      assert before + rest == [before[0]] + (before[1..] + rest);
    }
  }

  lemma {:induction false} NoQuoteUnchanged(s: string)
    requires '"' !in s
    ensures DelimitCommand(s) == s
  {
    if s != "" {
      NoQuoteUnchanged(s[1..]);
    }
  }

  function Quotes(s: string): nat {
    if s == "" then 0 else Quotes(s[1..]) + if s[0] == '"' then 1 else 0
  }

  /** Every string, runs of backslashes included, is got back. */
  lemma {:induction false} UndelimitDelimit(s: string)
    ensures Undelimit(DelimitCommand(s)) == s
  {
    if s != "" {
      var d, rest := DelimitCommand(s), DelimitCommand(s[1..]);
      UndelimitDelimit(s[1..]);
      if s[0] == '"' {
        assert d[|ESCAPED_QUOTE|..] == rest;
      } else {
        NoFalseMatch(s);
        assert d[1..] == rest;
      }
    }
  }

  /** An escaped string that begins with anything but a quote does not begin
      with an escaped quote: after one, two or three backslashes of its own, the
      next escaped quote starts with a backslash again. */
  lemma NoFalseMatch(s: string)
    requires s != "" && s[0] != '"'
    ensures !(ESCAPED_QUOTE <= DelimitCommand(s))
  {
    var d := DelimitCommand(s);
    NotAQuote(s[1..]);
    if |s| > 1 && s[1] != '"' {
      NotAQuote(s[2..]);
      if |s| > 2 && s[2] != '"' {
        NotAQuote(s[3..]);
        assert |d| > 3 ==> d[3] == DelimitCommand(s[3..])[0];
      } else {
        assert |d| > 3 ==> d[3] == DelimitCommand(s[2..])[1];
      }
    } else {
      assert |d| > 3 ==> d[3] == DelimitCommand(s[1..])[2];
    }
  }

  lemma NotAQuote(s: string)
    ensures DelimitCommand(s) != "" ==> DelimitCommand(s)[0] != '"'
  {
  }

  /** Distinct commands stay distinct. */
  lemma DelimitIsInjective(a: string, b: string)
    requires DelimitCommand(a) == DelimitCommand(b)
    ensures a == b
  {
    UndelimitDelimit(a);
    UndelimitDelimit(b);
  }

  /** Each quote adds three characters. */
  lemma {:induction false} DelimitedLength(s: string)
    ensures |DelimitCommand(s)| == |s| + 3 * Quotes(s)
  {
    if s != "" {
      DelimitedLength(s[1..]);
    }
  }
}
