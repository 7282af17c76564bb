/** The Check-Host job client: submit a check (with retries) and poll for its
    result (with a bounded wait). The transport and the clock are given as
    oracles: the reply to each submission attempt, the reply to each poll,
    and the elapsed time read after each poll. What the client does is
    recorded as a trace of requests and sleeps. */
module CheckHostApi {
  import opened JsonValue
  import opened Normalizer

  const BaseUrl: string := "https://check-host.net"
  /** Attempts at submitting a check. */
  const MaxRetries: nat := 3
  /** Seconds slept before every poll. */
  const ResultWaitTime: nat := 10
  /** Seconds after which polling gives up. */
  const MaxWaitTime: nat := 30
  /** Seconds slept after a failed submission attempt. */
  const RetryBackoff: nat := 2
  /** Polls that fit in the wait: MaxWaitTime / ResultWaitTime. */
  const MaxPolls: nat := 3

  const NoIdMsg: string := "No check ID received after retries"
  const SubmitFailedPrefix: string := "API request failed after retries: "
  const TransportTimeoutPrefix: string := "Timeout waiting for results: "
  const IncompleteMsg: string := "Timeout waiting for all nodes to respond"

  /** What the client does to the outside world. */
  datatype Action =
    | SubmitGet(url: string, host: string, nodes: set<string>)
    | ResultGet(url: string)
    | Sleep(seconds: nat)

  /** The outcome of one submission request: the transport raised (a
      request exception, with its text), or a JSON body whose 'request_id'
      is given (None when the key is missing). */
  datatype SubmitReply = SubmitRaised(reason: string) | SubmitResponse(requestId: Option<string>)

  /** The outcome of one poll: the transport raised, or the result dict. */
  datatype PollReply = PollRaised(reason: string) | PollData(data: Dict)

  /** What a run returns and the actions it took, in order. */
  datatype Run = Run(reply: Dict, trace: seq<Action>)

  function Prepend(actions: seq<Action>, r: Run): Run
  {
    Run(r.reply, actions + r.trace)
  }

  lemma PrependTwice(a: seq<Action>, b: seq<Action>, r: Run)
    ensures Prepend(a, Prepend(b, r)) == Prepend(a + b, r)
  {
    assert a + (b + r.trace) == (a + b) + r.trace;
  }

  function KindPath(kind: CheckKind): string
  {
    match kind
    case Ping => "ping"
    case Http => "http"
    case Tcp => "tcp"
    case Udp => "udp"
    case Dns => "dns"
  }

  function SubmitUrl(kind: CheckKind): string
  {
    BaseUrl + "/check-" + KindPath(kind)
  }

  function ResultUrl(checkId: string): string
  {
    BaseUrl + "/check-result/" + checkId
  }

  /** Every node has reported: no entry's value is null. */
  predicate AllResponded(d: Dict)
  {
    forall i :: 0 <= i < |d| ==> d[i].1 != JNull
  }

  /** A complete result looks up a non-null value under every key; for a
      dict with distinct keys, that is also enough to be complete. */
  lemma AllRespondedLookup(d: Dict)
    ensures AllResponded(d) ==> forall key :: HasKey(d, key) ==> Lookup(d, key) != JNull
    ensures DistinctKeys(d) && (forall key :: HasKey(d, key) ==> Lookup(d, key) != JNull) ==> AllResponded(d)
  {
    if DistinctKeys(d) {
      forall i | 0 <= i < |d| ensures HasKey(d, d[i].0) && Lookup(d, d[i].0) == d[i].1 {
        LookupDistinct(d, i);
      }
    }
  }

  /** `not check_id`: a missing or empty request id. */
  predicate MissingId(id: Option<string>)
  {
    id == None || id == Some("")
  }

  /** `MissingId` is Python's `not check_id` on a string or None: the id is
      missing exactly when it is not a truthy string. */
  lemma MissingIdIsFalsy(id: Option<string>)
    ensures MissingId(id) <==> !(id.Some? && Truthy(JStr(id.value)))
  {
  }

  /** The elapsed-time readings: since the client sleeps ResultWaitTime
      seconds before each poll, the reading after poll i is at least
      ResultWaitTime * (i + 1). */
  predicate SleepClock(clock: seq<real>)
  {
    forall i :: 0 <= i < |clock| ==> clock[i] >= (ResultWaitTime * (i + 1)) as real
  }

  /** Enough poll replies and clock readings for the longest possible wait. */
  predicate PollOracle(polls: seq<PollReply>, clock: seq<real>)
  {
    |polls| >= MaxPolls && |clock| >= MaxPolls && SleepClock(clock)
  }

  /** The poll loop from its i-th iteration on, with `elapsed` the last
      reading: stop once the wait is used up, else sleep, poll, and return
      a complete result, or give up on a transport error past the wait,
      or go round again. */
  function PollLoop(url: string, polls: seq<PollReply>, clock: seq<real>, i: nat, elapsed: real): (r: Run)
    requires PollOracle(polls, clock)
    requires i <= MaxPolls && (elapsed < MaxWaitTime as real ==> i < MaxPolls)
    decreases MaxPolls - i
  {
    if elapsed >= MaxWaitTime as real then Run(ErrorDict(IncompleteMsg), [])
    else
      var step := [Sleep(ResultWaitTime), ResultGet(url)];
      match polls[i]
      case PollData(d) =>
        if AllResponded(d) then Run(d, step)
        else Prepend(step, PollLoop(url, polls, clock, i + 1, clock[i]))
      case PollRaised(reason) =>
        if clock[i] >= MaxWaitTime as real then Run(ErrorDict(TransportTimeoutPrefix + reason), step)
        else Prepend(step, PollLoop(url, polls, clock, i + 1, clock[i]))
  }

  /** Wait for the result of check `checkId`. */
  method GetCheckResults(checkId: string, polls: seq<PollReply>, clock: seq<real>)
    returns (reply: Dict, trace: seq<Action>)
    requires PollOracle(polls, clock)
    ensures Run(reply, trace) == PollLoop(ResultUrl(checkId), polls, clock, 0, 0.0)
  {
    var url := ResultUrl(checkId);
    var elapsed: real := 0.0;
    var i: nat := 0;
    trace := [];
    while elapsed < MaxWaitTime as real
      invariant i <= MaxPolls && (elapsed < MaxWaitTime as real ==> i < MaxPolls)
      invariant Prepend(trace, PollLoop(url, polls, clock, i, elapsed)) == PollLoop(url, polls, clock, 0, 0.0)
      decreases MaxPolls - i
    {
      var step := [Sleep(ResultWaitTime), ResultGet(url)];
      ghost var rest := PollLoop(url, polls, clock, i, elapsed);
      var outcome := polls[i];
      if outcome.PollData? && AllResponded(outcome.data) {
        return outcome.data, trace + step;
      }
      if outcome.PollRaised? && clock[i] >= MaxWaitTime as real {
        return ErrorDict(TransportTimeoutPrefix + outcome.reason), trace + step;
      }
      assert clock[i] >= (ResultWaitTime * (i + 1)) as real;
      ghost var next := PollLoop(url, polls, clock, i + 1, clock[i]);
      assert rest == Prepend(step, next);
      PrependTwice(trace, step, next);
      trace := trace + step;
      elapsed := clock[i];
      i := i + 1;
    }
    return ErrorDict(IncompleteMsg), trace;
  }

  /** The submission loop from attempt `attempt` on. */
  function SubmitLoop(kind: CheckKind, host: string, nodes: set<string>, submits: seq<SubmitReply>,
                      polls: seq<PollReply>, clock: seq<real>, attempt: nat): (r: Run)
    requires |submits| >= MaxRetries && PollOracle(polls, clock) && attempt < MaxRetries
    decreases MaxRetries - attempt
  {
    var get := [SubmitGet(SubmitUrl(kind), host, nodes)];
    match submits[attempt]
    case SubmitRaised(reason) =>
      if attempt == MaxRetries - 1 then Run(ErrorDict(SubmitFailedPrefix + reason), get)
      else Prepend(get + [Sleep(RetryBackoff)], SubmitLoop(kind, host, nodes, submits, polls, clock, attempt + 1))
    case SubmitResponse(id) =>
      if MissingId(id) then
        if attempt == MaxRetries - 1 then Run(ErrorDict(NoIdMsg), get)
        else Prepend(get, SubmitLoop(kind, host, nodes, submits, polls, clock, attempt + 1))
      else Prepend(get, PollLoop(ResultUrl(id.value), polls, clock, 0, 0.0))
  }

  /** Submit a check of the given kind for `host` from `nodes` and wait for
      its result. */
  method CheckAndWait(kind: CheckKind, host: string, nodes: set<string>, submits: seq<SubmitReply>,
                      polls: seq<PollReply>, clock: seq<real>)
    returns (reply: Dict, trace: seq<Action>)
    requires |submits| >= MaxRetries && PollOracle(polls, clock)
    ensures Run(reply, trace) == SubmitLoop(kind, host, nodes, submits, polls, clock, 0)
  {
    var get := [SubmitGet(SubmitUrl(kind), host, nodes)];
    trace := [];
    var attempt := 0;
    while true
      invariant attempt < MaxRetries
      invariant Prepend(trace, SubmitLoop(kind, host, nodes, submits, polls, clock, attempt))
             == SubmitLoop(kind, host, nodes, submits, polls, clock, 0)
      decreases MaxRetries - attempt
    {
      ghost var rest := SubmitLoop(kind, host, nodes, submits, polls, clock, attempt);
      var outcome := submits[attempt];
      if outcome.SubmitRaised? {
        if attempt == MaxRetries - 1 {
          return ErrorDict(SubmitFailedPrefix + outcome.reason), trace + get;
        }
        ghost var next := SubmitLoop(kind, host, nodes, submits, polls, clock, attempt + 1);
        assert rest == Prepend(get + [Sleep(RetryBackoff)], next);
        PrependTwice(trace, get + [Sleep(RetryBackoff)], next);
        trace := trace + (get + [Sleep(RetryBackoff)]);
      } else if MissingId(outcome.requestId) {
        if attempt == MaxRetries - 1 {
          return ErrorDict(NoIdMsg), trace + get;
        }
        ghost var next := SubmitLoop(kind, host, nodes, submits, polls, clock, attempt + 1);
        assert rest == Prepend(get, next);
        PrependTwice(trace, get, next);
        trace := trace + get;
      } else {
        var pollTrace;
        reply, pollTrace := GetCheckResults(outcome.requestId.value, polls, clock);
        assert rest == Prepend(get, Run(reply, pollTrace));
        PrependTwice(trace, get, Run(reply, pollTrace));
        return reply, trace + get + pollTrace;
      }
      attempt := attempt + 1;
    }
  }

  // ---------------------------------------------------------------------
  // Properties of polling

  /** Whether poll k came back incomplete. */
  predicate Incomplete(polls: seq<PollReply>, k: nat)
    requires k < |polls|
  {
    polls[k].PollData? && !AllResponded(polls[k].data)
  }

  /** Every poll is preceded by its sleep, and there are at most as many
      polls as fit in the wait (three), at least one when polling starts. */
  lemma {:induction false} PollTraceShape(url: string, polls: seq<PollReply>, clock: seq<real>, i: nat, elapsed: real)
    requires PollOracle(polls, clock)
    requires i <= MaxPolls && (elapsed < MaxWaitTime as real ==> i < MaxPolls)
    ensures var t := PollLoop(url, polls, clock, i, elapsed).trace;
      && |t| % 2 == 0
      && |t| <= 2 * (MaxPolls - i)
      && (elapsed < MaxWaitTime as real ==> |t| >= 2)
      && forall j :: 0 <= j < |t| ==> t[j] == (if j % 2 == 0 then Sleep(ResultWaitTime) else ResultGet(url))
    decreases MaxPolls - i
  {
    if elapsed < MaxWaitTime as real {
      var step := [Sleep(ResultWaitTime), ResultGet(url)];
      var continues := match polls[i]
        case PollData(d) => !AllResponded(d)
        case PollRaised(_) => clock[i] < MaxWaitTime as real;
      if continues {
        PollTraceShape(url, polls, clock, i + 1, clock[i]);
        var rest := PollLoop(url, polls, clock, i + 1, clock[i]).trace;
        assert PollLoop(url, polls, clock, i, elapsed).trace == step + rest;
        forall j | 2 <= j < 2 + |rest|
          ensures (step + rest)[j] == (if j % 2 == 0 then Sleep(ResultWaitTime) else ResultGet(url))
        {
          assert (step + rest)[j] == rest[j - 2];
        }
      }
    }
  }

  /** The reply is one of three things: the payload of a poll that came back
      complete; the transport-failure timeout, after a poll that raised once
      the wait was used up; or the incomplete-results timeout, after a poll
      that came back incomplete once the wait was used up. */
  lemma {:induction false} PollReplyCases(url: string, polls: seq<PollReply>, clock: seq<real>, i: nat, elapsed: real)
    requires PollOracle(polls, clock)
    requires i <= MaxPolls && (elapsed < MaxWaitTime as real ==> i < MaxPolls)
    requires elapsed >= MaxWaitTime as real ==> 0 < i && Incomplete(polls, i - 1) && elapsed == clock[i - 1]
    ensures var r := PollLoop(url, polls, clock, i, elapsed).reply;
      || (exists k :: 0 <= k < MaxPolls && polls[k].PollData? && AllResponded(polls[k].data) && r == polls[k].data)
      || (exists k :: 0 <= k < MaxPolls && polls[k].PollRaised? && clock[k] >= MaxWaitTime as real
                      && r == ErrorDict(TransportTimeoutPrefix + polls[k].reason))
      || (exists k :: 0 <= k < MaxPolls && Incomplete(polls, k) && clock[k] >= MaxWaitTime as real
                      && r == ErrorDict(IncompleteMsg))
    decreases MaxPolls - i
  {
    var r := PollLoop(url, polls, clock, i, elapsed).reply;
    if elapsed >= MaxWaitTime as real {
      var k := i - 1;
      assert Incomplete(polls, k) && clock[k] >= MaxWaitTime as real && r == ErrorDict(IncompleteMsg);
    } else {
      match polls[i]
      case PollData(d) =>
        if AllResponded(d) {
          assert polls[i].PollData? && AllResponded(polls[i].data) && r == polls[i].data;
        } else {
          PollReplyCases(url, polls, clock, i + 1, clock[i]);
        }
      case PollRaised(reason) =>
        if clock[i] >= MaxWaitTime as real {
          assert polls[i].PollRaised? && clock[i] >= MaxWaitTime as real
            && r == ErrorDict(TransportTimeoutPrefix + polls[i].reason);
        } else {
          PollReplyCases(url, polls, clock, i + 1, clock[i]);
        }
    }
  }

  /** A poll that is complete at once is returned after one sleep and one
      request, with no second sleep. */
  lemma CompleteAtFirstPoll(url: string, polls: seq<PollReply>, clock: seq<real>)
    requires PollOracle(polls, clock) && polls[0].PollData? && AllResponded(polls[0].data)
    ensures PollLoop(url, polls, clock, 0, 0.0) == Run(polls[0].data, [Sleep(ResultWaitTime), ResultGet(url)])
  {
  }

  /** The first poll to come back complete, when every poll before it was
      read before the wait ran out, is the one returned, and at once: one
      sleep and one request per poll up to it and none after. */
  lemma {:induction false} FirstCompletePoll(url: string, polls: seq<PollReply>, clock: seq<real>, i: nat, elapsed: real, k: nat)
    requires PollOracle(polls, clock)
    requires i <= k < MaxPolls && elapsed < MaxWaitTime as real
    requires polls[k].PollData? && AllResponded(polls[k].data)
    requires forall j :: i <= j < k ==> !(polls[j].PollData? && AllResponded(polls[j].data)) && clock[j] < MaxWaitTime as real
    ensures PollLoop(url, polls, clock, i, elapsed).reply == polls[k].data
    ensures |PollLoop(url, polls, clock, i, elapsed).trace| == 2 * (k - i + 1)
    decreases k - i
  {
    if i < k {
      assert !(polls[i].PollData? && AllResponded(polls[i].data)) && clock[i] < MaxWaitTime as real;
      FirstCompletePoll(url, polls, clock, i + 1, clock[i], k);
    }
  }

  /** When no poll ever comes back complete, polling goes on until the wait is
      used up and then fails with the incomplete-results timeout. */
  lemma {:induction false} NeverCompleteTimesOut(url: string, polls: seq<PollReply>, clock: seq<real>, i: nat, elapsed: real)
    requires PollOracle(polls, clock)
    requires forall k :: 0 <= k < MaxPolls ==> Incomplete(polls, k)
    requires i <= MaxPolls && (elapsed < MaxWaitTime as real ==> i < MaxPolls)
    ensures PollLoop(url, polls, clock, i, elapsed).reply == ErrorDict(IncompleteMsg)
    decreases MaxPolls - i
  {
    if elapsed < MaxWaitTime as real {
      assert Incomplete(polls, i);
      NeverCompleteTimesOut(url, polls, clock, i + 1, clock[i]);
    }
  }

  /** When every poll raises, polling goes on until a reading reaches the
      wait and then fails with that poll's transport error. */
  lemma {:induction false} AlwaysRaisingTimesOut(url: string, polls: seq<PollReply>, clock: seq<real>, i: nat, elapsed: real)
    requires PollOracle(polls, clock)
    requires forall k :: 0 <= k < MaxPolls ==> polls[k].PollRaised?
    requires i < MaxPolls && elapsed < MaxWaitTime as real
    ensures exists k :: (i <= k < MaxPolls && clock[k] >= MaxWaitTime as real
      && (forall j :: i <= j < k ==> clock[j] < MaxWaitTime as real)
      && PollLoop(url, polls, clock, i, elapsed).reply == ErrorDict(TransportTimeoutPrefix + polls[k].reason))
    decreases MaxPolls - i
  {
    if clock[i] < MaxWaitTime as real {
      AlwaysRaisingTimesOut(url, polls, clock, i + 1, clock[i]);
      var k :| i + 1 <= k < MaxPolls && clock[k] >= MaxWaitTime as real
        && (forall j :: i + 1 <= j < k ==> clock[j] < MaxWaitTime as real)
        && PollLoop(url, polls, clock, i + 1, clock[i]).reply == ErrorDict(TransportTimeoutPrefix + polls[k].reason);
      assert forall j :: i <= j < k ==> clock[j] < MaxWaitTime as real;
    } else {
      assert clock[i] >= MaxWaitTime as real;
    }
  }

  // ---------------------------------------------------------------------
  // Properties of submission

  /** The number of submission requests in a trace. */
  function SubmitCount(trace: seq<Action>): nat
  {
    if trace == [] then 0 else (if trace[0].SubmitGet? then 1 else 0) + SubmitCount(trace[1..])
  }

  lemma {:induction false} SubmitCountAppend(a: seq<Action>, b: seq<Action>)
    ensures SubmitCount(a + b) == SubmitCount(a) + SubmitCount(b)
  {
    if a != [] {
      assert (a + b)[1..] == a[1..] + b;
      SubmitCountAppend(a[1..], b);
    } else {
      assert a + b == b;
    }
  }

  lemma {:induction false} NoSubmitGets(t: seq<Action>)
    requires forall j :: 0 <= j < |t| ==> !t[j].SubmitGet?
    ensures SubmitCount(t) == 0
  {
    if t != [] {
      NoSubmitGets(t[1..]);
    }
  }

  lemma {:induction false} PollTraceHasNoSubmits(url: string, polls: seq<PollReply>, clock: seq<real>, i: nat, elapsed: real)
    requires PollOracle(polls, clock)
    requires i <= MaxPolls && (elapsed < MaxWaitTime as real ==> i < MaxPolls)
    ensures SubmitCount(PollLoop(url, polls, clock, i, elapsed).trace) == 0
    decreases MaxPolls - i
  {
    var step := [Sleep(ResultWaitTime), ResultGet(url)];
    NoSubmitGets(step);
    if elapsed < MaxWaitTime as real {
      var continues := match polls[i]
        case PollData(d) => !AllResponded(d)
        case PollRaised(_) => clock[i] < MaxWaitTime as real;
      if continues {
        PollTraceHasNoSubmits(url, polls, clock, i + 1, clock[i]);
        SubmitCountAppend(step, PollLoop(url, polls, clock, i + 1, clock[i]).trace);
      }
    }
  }

  /** At least one and at most MaxRetries (three) submission requests are made. */
  lemma {:induction false} SubmitAttemptsBounded(kind: CheckKind, host: string, nodes: set<string>, submits: seq<SubmitReply>,
                                                 polls: seq<PollReply>, clock: seq<real>, attempt: nat)
    requires |submits| >= MaxRetries && PollOracle(polls, clock) && attempt < MaxRetries
    ensures 1 <= SubmitCount(SubmitLoop(kind, host, nodes, submits, polls, clock, attempt).trace) <= MaxRetries - attempt
    decreases MaxRetries - attempt
  {
    var get := [SubmitGet(SubmitUrl(kind), host, nodes)];
    assert SubmitCount(get) == 1 by { assert get[1..] == []; }
    var run := SubmitLoop(kind, host, nodes, submits, polls, clock, attempt);
    if NoHandle(submits[attempt]) {
      if attempt < MaxRetries - 1 {
        var b := Backoff(submits[attempt]);
        var rest := SubmitLoop(kind, host, nodes, submits, polls, clock, attempt + 1).trace;
        FailedAttemptRetries(kind, host, nodes, submits, polls, clock, attempt);
        assert run.trace == (get + b) + rest;
        SubmitAttemptsBounded(kind, host, nodes, submits, polls, clock, attempt + 1);
        BackoffCount(submits[attempt]);
        SubmitCountAppend(get, b);
        SubmitCountAppend(get + b, rest);
      } else {
        assert run.trace == get;
      }
    } else {
      var id := submits[attempt].requestId;
      var pollTrace := PollLoop(ResultUrl(id.value), polls, clock, 0, 0.0).trace;
      assert run.trace == get + pollTrace;
      PollTraceHasNoSubmits(ResultUrl(id.value), polls, clock, 0, 0.0);
      SubmitCountAppend(get, pollTrace);
    }
  }

  /** Whether a submission attempt left the client without a request id. */
  predicate NoHandle(s: SubmitReply)
  {
    s.SubmitRaised? || MissingId(s.requestId)
  }

  /** The reply of the submission loop is either the reply of polling for the
      first request id received, or an error dict decided by the LAST attempt:
      no id, or the transport error of that attempt. */
  lemma {:induction false} SubmitReplyCases(kind: CheckKind, host: string, nodes: set<string>, submits: seq<SubmitReply>,
                                            polls: seq<PollReply>, clock: seq<real>, attempt: nat)
    requires |submits| >= MaxRetries && PollOracle(polls, clock) && attempt < MaxRetries
    ensures var r := SubmitLoop(kind, host, nodes, submits, polls, clock, attempt).reply;
      || (exists k :: attempt <= k < MaxRetries && submits[k].SubmitResponse? && !MissingId(submits[k].requestId)
                      && (forall j :: attempt <= j < k ==> NoHandle(submits[j]))
                      && r == PollLoop(ResultUrl(submits[k].requestId.value), polls, clock, 0, 0.0).reply)
      || (submits[MaxRetries - 1].SubmitResponse? && MissingId(submits[MaxRetries - 1].requestId)
          && r == ErrorDict(NoIdMsg))
      || (submits[MaxRetries - 1].SubmitRaised?
          && r == ErrorDict(SubmitFailedPrefix + submits[MaxRetries - 1].reason))
    decreases MaxRetries - attempt
  {
    var r := SubmitLoop(kind, host, nodes, submits, polls, clock, attempt).reply;
    var retried := submits[attempt].SubmitRaised? || MissingId(submits[attempt].requestId);
    if retried && attempt < MaxRetries - 1 {
      assert r == SubmitLoop(kind, host, nodes, submits, polls, clock, attempt + 1).reply;
      SubmitReplyCases(kind, host, nodes, submits, polls, clock, attempt + 1);
      if k :| attempt + 1 <= k < MaxRetries && submits[k].SubmitResponse? && !MissingId(submits[k].requestId)
              && (forall j :: attempt + 1 <= j < k ==> NoHandle(submits[j]))
              && r == PollLoop(ResultUrl(submits[k].requestId.value), polls, clock, 0, 0.0).reply {
        assert forall j :: attempt <= j < k ==> NoHandle(submits[j]);
      }
    } else if !retried {
      var id := submits[attempt].requestId;
      assert r == PollLoop(ResultUrl(id.value), polls, clock, 0, 0.0).reply;
    }
  }

  /** The first attempt that yields a request id wins: after the failed
      attempts before it, the client polls for that id and returns what
      polling returns, having made one submission per attempt up to it. */
  lemma {:induction false} FirstIdWins(kind: CheckKind, host: string, nodes: set<string>, submits: seq<SubmitReply>,
                                       polls: seq<PollReply>, clock: seq<real>, attempt: nat, k: nat)
    requires |submits| >= MaxRetries && PollOracle(polls, clock) && attempt <= k < MaxRetries
    requires forall j :: attempt <= j < k ==> NoHandle(submits[j])
    requires submits[k].SubmitResponse? && !MissingId(submits[k].requestId)
    ensures SubmitLoop(kind, host, nodes, submits, polls, clock, attempt).reply
         == PollLoop(ResultUrl(submits[k].requestId.value), polls, clock, 0, 0.0).reply
    ensures SubmitCount(SubmitLoop(kind, host, nodes, submits, polls, clock, attempt).trace) == k - attempt + 1
    decreases k - attempt
  {
    var get := [SubmitGet(SubmitUrl(kind), host, nodes)];
    assert SubmitCount(get) == 1 by { assert get[1..] == []; }
    var run := SubmitLoop(kind, host, nodes, submits, polls, clock, attempt);
    if attempt == k {
      var poll := PollLoop(ResultUrl(submits[k].requestId.value), polls, clock, 0, 0.0);
      assert run == Prepend(get, poll);
      PollTraceHasNoSubmits(ResultUrl(submits[k].requestId.value), polls, clock, 0, 0.0);
      SubmitCountAppend(get, poll.trace);
    } else {
      assert NoHandle(submits[attempt]);
      var b := Backoff(submits[attempt]);
      var rest := SubmitLoop(kind, host, nodes, submits, polls, clock, attempt + 1);
      FailedAttemptRetries(kind, host, nodes, submits, polls, clock, attempt);
      FirstIdWins(kind, host, nodes, submits, polls, clock, attempt + 1, k);
      assert run == Prepend(get + b, rest);
      BackoffCount(submits[attempt]);
      SubmitCountAppend(get, b);
      SubmitCountAppend(get + b, rest.trace);
    }
  }

  /** A backend that never hands out a request id gets exactly three
      submissions, with no sleep between them, and the no-id error. */
  lemma NeverAnIdGivesUp(kind: CheckKind, host: string, nodes: set<string>, submits: seq<SubmitReply>,
                         polls: seq<PollReply>, clock: seq<real>)
    requires |submits| >= MaxRetries && PollOracle(polls, clock)
    requires forall k :: 0 <= k < MaxRetries ==> submits[k].SubmitResponse? && MissingId(submits[k].requestId)
    ensures var get := SubmitGet(SubmitUrl(kind), host, nodes);
      SubmitLoop(kind, host, nodes, submits, polls, clock, 0) == Run(ErrorDict(NoIdMsg), [get, get, get])
  {
    assert submits[0].SubmitResponse? && submits[1].SubmitResponse? && submits[2].SubmitResponse?;
  }

  /** A transport that always raises gets three submissions with a
      two-second sleep after each of the first two, and the last error. */
  lemma AlwaysRaisingGivesUp(kind: CheckKind, host: string, nodes: set<string>, submits: seq<SubmitReply>,
                             polls: seq<PollReply>, clock: seq<real>)
    requires |submits| >= MaxRetries && PollOracle(polls, clock)
    requires forall k :: 0 <= k < MaxRetries ==> submits[k].SubmitRaised?
    ensures var get := SubmitGet(SubmitUrl(kind), host, nodes);
      SubmitLoop(kind, host, nodes, submits, polls, clock, 0)
        == Run(ErrorDict(SubmitFailedPrefix + submits[2].reason),
               [get, Sleep(RetryBackoff), get, Sleep(RetryBackoff), get])
  {
    assert submits[0].SubmitRaised? && submits[1].SubmitRaised? && submits[2].SubmitRaised?;
  }

  /** The sleep that follows a failed attempt: two seconds after a transport
      error, none after a response without an id. */
  function Backoff(s: SubmitReply): seq<Action>
  {
    if s.SubmitRaised? then [Sleep(RetryBackoff)] else []
  }

  /** When no attempt yields a request id, in any mix of transport errors and
      id-less responses, exactly three submissions are made, each failed one
      but the last is followed by its backoff, and the last attempt decides
      the error. */
  lemma NoHandleGivesUp(kind: CheckKind, host: string, nodes: set<string>, submits: seq<SubmitReply>,
                        polls: seq<PollReply>, clock: seq<real>)
    requires |submits| >= MaxRetries && PollOracle(polls, clock)
    requires forall k :: 0 <= k < MaxRetries ==> NoHandle(submits[k])
    ensures var get := [SubmitGet(SubmitUrl(kind), host, nodes)];
      var run := SubmitLoop(kind, host, nodes, submits, polls, clock, 0);
      && run.trace == get + Backoff(submits[0]) + get + Backoff(submits[1]) + get
      && SubmitCount(run.trace) == MaxRetries
      && run.reply == ErrorDict(if submits[2].SubmitRaised? then SubmitFailedPrefix + submits[2].reason else NoIdMsg)
  {
    var get := [SubmitGet(SubmitUrl(kind), host, nodes)];
    var b0, b1 := Backoff(submits[0]), Backoff(submits[1]);
    var last := SubmitLoop(kind, host, nodes, submits, polls, clock, 2);
    FailedAttemptRetries(kind, host, nodes, submits, polls, clock, 1);
    FailedAttemptRetries(kind, host, nodes, submits, polls, clock, 0);
    assert SubmitLoop(kind, host, nodes, submits, polls, clock, 0) == Prepend(get + b0, Prepend(get + b1, last));
    assert last == Run(ErrorDict(if submits[2].SubmitRaised? then SubmitFailedPrefix + submits[2].reason else NoIdMsg), get);
    var t := get + b0 + get + b1 + get;
    assert (get + b0) + ((get + b1) + get) == t;
    BackoffCount(submits[0]);
    BackoffCount(submits[1]);
    assert SubmitCount(get) == 1 by { assert get[1..] == []; }
    SubmitCountAppend(get, b0);
    SubmitCountAppend(get + b0, get);
    SubmitCountAppend(get + b0 + get, b1);
    SubmitCountAppend(get + b0 + get + b1, get);
  }

  /** An attempt that leaves the client without an id, before the last one,
      is one submission and its backoff, followed by the next attempt. */
  lemma FailedAttemptRetries(kind: CheckKind, host: string, nodes: set<string>, submits: seq<SubmitReply>,
                             polls: seq<PollReply>, clock: seq<real>, attempt: nat)
    requires |submits| >= MaxRetries && PollOracle(polls, clock) && attempt < MaxRetries - 1
    requires NoHandle(submits[attempt])
    ensures SubmitLoop(kind, host, nodes, submits, polls, clock, attempt)
      == Prepend([SubmitGet(SubmitUrl(kind), host, nodes)] + Backoff(submits[attempt]),
                 SubmitLoop(kind, host, nodes, submits, polls, clock, attempt + 1))
  {
    if submits[attempt].SubmitResponse? {
      assert [SubmitGet(SubmitUrl(kind), host, nodes)] + Backoff(submits[attempt]) == [SubmitGet(SubmitUrl(kind), host, nodes)];
    }
  }

  lemma BackoffCount(s: SubmitReply)
    ensures SubmitCount(Backoff(s)) == 0
  {
    NoSubmitGets(Backoff(s));
  }
}
