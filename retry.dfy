/** The retry logic of `chamar_gpt`. The network is replaced by a script:
    the outcome of each of the at most three requests, in order. Waiting is
    recorded as the list of sleep durations, in seconds. */
module Retry {
  import opened Wrappers
  import opened Text

  /** The number of requests tried. */
  const MaxAttempts: nat := 3

  /** The HTTP status that means "too many requests". */
  const RateLimited: int := 429

  /** What one request gave: the reply text of a successful response, a
      response that `raise_for_status` rejected (with its status and body),
      or any other exception (a connection error, a timeout, a response
      without the expected fields), with its message. */
  datatype Outcome =
    | Reply(content: string)
    | HttpError(status: int, body: string)
    | Failure(message: string)

  /** What the call returns (None when it falls off the end of the loop),
      the sleeps it made and how many requests it sent. */
  datatype Call = Call(reply: Option<string>, sleeps: seq<nat>, attempts: nat)

  function HttpErrorText(status: int, body: string): string {
    "Erro na API (HTTP " + IntToString(status) + "): " + body
  }

  function FatalText(message: string): string {
    "Erro fatal na conexão: " + message
  }

  /** The call from attempt `t` on. A rate-limited attempt sleeps
      `2 * (t + 1)` seconds and tries again; another HTTP error is
      returned as text; any other failure sleeps one second and tries again,
      except on the last attempt, where it is re-raised and the outer
      handler turns it into text. */
  function CallFrom(script: seq<Outcome>, t: nat): (c: Call)
    requires t <= MaxAttempts <= |script|
    ensures c.attempts <= MaxAttempts - t
    ensures |c.sleeps| <= c.attempts
    decreases MaxAttempts - t
  {
    if t == MaxAttempts then Call(None, [], 0)
    else match script[t]
      case Reply(content) => Call(Some(content), [], 1)
      case HttpError(status, body) =>
        if status == RateLimited then
          var rest := CallFrom(script, t + 1);
          Call(rest.reply, [2 * (t + 1)] + rest.sleeps, 1 + rest.attempts)
        else Call(Some(HttpErrorText(status, body)), [], 1)
      case Failure(message) =>
        if t == MaxAttempts - 1 then Call(Some(FatalText(message)), [], 1)
        else
          var rest := CallFrom(script, t + 1);
          Call(rest.reply, [1] + rest.sleeps, 1 + rest.attempts)
  }

  /** The text returned when an attempt ends the loop with outcome `o`. */
  function Result(o: Outcome): string {
    match o
    case Reply(content) => content
    case HttpError(status, body) => HttpErrorText(status, body)
    case Failure(message) => FatalText(message)
  }

  /** `chamar_gpt` against a script of outcomes. */
  function CallGpt(script: seq<Outcome>): Call
    requires MaxAttempts <= |script|
  {
    CallFrom(script, 0)
  }

  /** An outcome after which the loop tries again, at attempt `t`. */
  predicate Retried(o: Outcome, t: nat) {
    (o.HttpError? && o.status == RateLimited) || (o.Failure? && t < MaxAttempts - 1)
  }

  /** The sleep after a retried outcome at attempt `t`. */
  function Backoff(o: Outcome, t: nat): nat {
    if o.HttpError? then 2 * (t + 1) else 1
  }

  /** The call sends one request per attempt until the first outcome that is
      not retried; every earlier attempt slept its back-off. */
  lemma {:induction false} CallShape(script: seq<Outcome>, t: nat)
    requires t <= MaxAttempts <= |script|
    ensures var c := CallFrom(script, t);
            t + c.attempts <= MaxAttempts
            && (forall k :: t <= k < t + |c.sleeps| ==> Retried(script[k], k) && c.sleeps[k - t] == Backoff(script[k], k))
            && (c.reply.None? <==> |c.sleeps| == c.attempts)
            && (c.reply.Some? ==> |c.sleeps| + 1 == c.attempts && !Retried(script[t + |c.sleeps|], t + |c.sleeps|)
                                  && c.reply.value == Result(script[t + |c.sleeps|]))
    decreases MaxAttempts - t
  {
    if t < MaxAttempts {
      CallShape(script, t + 1);
      var c := CallFrom(script, t);
      var rest := CallFrom(script, t + 1);
      if Retried(script[t], t) {
        assert c.sleeps == [Backoff(script[t], t)] + rest.sleeps;
        assert c.reply == rest.reply && c.attempts == 1 + rest.attempts;
      } else {
        assert c.sleeps == [] && c.attempts == 1 && c.reply == Some(Result(script[t]));
      }
    }
  }

  /** The call returns None exactly when all three attempts were retried:
      the last one rate limited, each earlier one rate limited or failed.
      The sleeps are then the three back-offs; 2, 4 and 6 seconds when all
      three were rate limited. */
  lemma NoneIffAllRetried(script: seq<Outcome>)
    requires MaxAttempts <= |script|
    ensures CallGpt(script).reply.None? <==> forall k :: 0 <= k < MaxAttempts ==> Retried(script[k], k)
    ensures CallGpt(script).reply.None? ==> script[2].HttpError? && script[2].status == RateLimited
    ensures CallGpt(script).reply.None? ==>
              CallGpt(script).sleeps == [Backoff(script[0], 0), Backoff(script[1], 1), 6]
    ensures (forall k :: 0 <= k < MaxAttempts ==> script[k].HttpError? && script[k].status == RateLimited)
            ==> CallGpt(script) == Call(None, [2, 4, 6], 3)
  {
    CallShape(script, 0);
    if CallGpt(script).reply.None? {
      NoneRunsToEnd(script, 0);
    }
  }

  /** A None reply means every attempt from `t` on was retried. */
  lemma {:induction false} NoneRunsToEnd(script: seq<Outcome>, t: nat)
    requires t <= MaxAttempts <= |script|
    requires CallFrom(script, t).reply.None?
    ensures forall k :: t <= k < MaxAttempts ==> Retried(script[k], k)
    decreases MaxAttempts - t
  {
    if t < MaxAttempts {
      assert Retried(script[t], t);
      CallStep(script, t);
      NoneRunsToEnd(script, t + 1);
    }
  }

  /** A retried attempt sleeps its back-off and hands over to the next. */
  lemma CallStep(script: seq<Outcome>, t: nat)
    requires t < MaxAttempts <= |script| && Retried(script[t], t)
    ensures var rest := CallFrom(script, t + 1);
            CallFrom(script, t) == Call(rest.reply, [Backoff(script[t], t)] + rest.sleeps, 1 + rest.attempts)
  {
  }

  /** A first reply is returned at once. */
  lemma FirstReplyWins(script: seq<Outcome>, content: string)
    requires MaxAttempts <= |script| && script[0] == Reply(content)
    ensures CallGpt(script) == Call(Some(content), [], 1)
  {
  }

  /** When the attempts before `t` were all retried and attempt `t` is not,
      the call returns the text of attempt `t` after `t + 1` requests,
      having slept the back-off of each earlier attempt. */
  lemma {:induction false} StopsAt(script: seq<Outcome>, j: nat, t: nat)
    requires j <= t < MaxAttempts <= |script|
    requires forall k :: j <= k < t ==> Retried(script[k], k)
    requires !Retried(script[t], t)
    ensures var c := CallFrom(script, j);
            c.reply == Some(Result(script[t])) && c.attempts == t - j + 1 && |c.sleeps| == t - j
            && forall k :: j <= k < t ==> c.sleeps[k - j] == Backoff(script[k], k)
    decreases t - j
  {
    if j < t {
      CallStep(script, j);
      StopsAt(script, j + 1, t);
    }
  }

  /** An HTTP error other than 429 is not retried, at whichever attempt it
      comes: its status and body come back as text, after the back-offs of
      the rate-limited or failed attempts before it. */
  lemma OtherHttpErrorNotRetried(script: seq<Outcome>, t: nat, status: int, body: string)
    requires t < MaxAttempts <= |script|
    requires forall k :: 0 <= k < t ==> Retried(script[k], k)
    requires script[t] == HttpError(status, body) && status != RateLimited
    ensures var c := CallGpt(script);
            c.reply == Some(HttpErrorText(status, body)) && c.attempts == t + 1 && |c.sleeps| == t
            && forall k :: 0 <= k < t ==> c.sleeps[k] == Backoff(script[k], k)
  {
    StopsAt(script, 0, t);
  }

  /** A 429 followed by a 500 returns the 500's text after one sleep of two
      seconds; two 429s followed by a failure return the fatal text after
      sleeps of two and four seconds. */
  lemma RetriedThenStopped(script: seq<Outcome>)
    requires MaxAttempts <= |script|
    ensures script[0] == HttpError(429, "") && script[1] == HttpError(500, "x")
            ==> CallGpt(script) == Call(Some(HttpErrorText(500, "x")), [2], 2)
    ensures script[0] == HttpError(429, "") && script[1] == HttpError(429, "") && script[2] == Failure("m")
            ==> CallGpt(script) == Call(Some(FatalText("m")), [2, 4], 3)
  {
    if script[0] == HttpError(429, "") && script[1] == HttpError(500, "x") {
      StopsAt(script, 0, 1);
    }
    if script[0] == HttpError(429, "") && script[1] == HttpError(429, "") && script[2] == Failure("m") {
      StopsAt(script, 0, 2);
    }
  }

  /** Three failures in a row give the fatal-connection text of the last,
      after two one-second sleeps. */
  lemma ThreeFailures(script: seq<Outcome>)
    requires MaxAttempts <= |script|
    requires script[0].Failure? && script[1].Failure? && script[2].Failure?
    ensures CallGpt(script) == Call(Some(FatalText(script[2].message)), [1, 1], 3)
  {
  }

  /** The call is the loop of `chamar_gpt`: up to three attempts, leaving
      with the first outcome that is not retried. */
  method CallGptLoop(script: seq<Outcome>) returns (reply: Option<string>, sleeps: seq<nat>, attempts: nat)
    requires MaxAttempts <= |script|
    ensures Call(reply, sleeps, attempts) == CallGpt(script)
  {
    sleeps := [];
    attempts := 0;
    var t := 0;
    while t < MaxAttempts
      invariant 0 <= t <= MaxAttempts && attempts == t
      invariant CallGpt(script).reply == CallFrom(script, t).reply
      invariant CallGpt(script).sleeps == sleeps + CallFrom(script, t).sleeps
      invariant CallGpt(script).attempts == t + CallFrom(script, t).attempts
    {
      attempts := attempts + 1;
      match script[t] {
        case Reply(content) =>
          assert CallFrom(script, t) == Call(Some(content), [], 1);
          return Some(content), sleeps, attempts;
        case HttpError(status, body) =>
          if status != RateLimited {
            assert CallFrom(script, t) == Call(Some(HttpErrorText(status, body)), [], 1);
            return Some(HttpErrorText(status, body)), sleeps, attempts;
          }
        case Failure(message) =>
          if t == MaxAttempts - 1 {
            assert CallFrom(script, t) == Call(Some(FatalText(message)), [], 1);
            return Some(FatalText(message)), sleeps, attempts;
          }
      }
      CallStep(script, t);
      var rest := CallFrom(script, t + 1);
      assert sleeps + ([Backoff(script[t], t)] + rest.sleeps) == (sleeps + [Backoff(script[t], t)]) + rest.sleeps;
      sleeps := sleeps + [Backoff(script[t], t)];
      t := t + 1;
    }
    reply := None;
  }

}
