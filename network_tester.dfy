/** The tester's five global checks: default the URL scheme for HTTP, run
    the check through the job client against every node of the table, and
    normalize what comes back. */
module NetworkTester {
  import opened JsonValue
  import opened NodeTable
  import opened Normalizer
  import opened CheckHostApi

  /** `url` if it already names http or https, else `url` over plain http. */
  function WithScheme(url: string): (u: string)
    ensures "http://" <= u || "https://" <= u
    ensures |u| >= |url| && u[|u| - |url|..] == url
  {
    if "http://" <= url || "https://" <= url then url else "http://" + url
  }

  /** The defaulted URL always names http or https; a URL that already did
      is kept as is, any other gets exactly "http://" in front; and
      defaulting twice is defaulting once. */
  lemma WithSchemeFacts(url: string)
    ensures "http://" <= WithScheme(url) || "https://" <= WithScheme(url)
    ensures ("http://" <= url || "https://" <= url) ==> WithScheme(url) == url
    ensures !("http://" <= url || "https://" <= url) ==>
      WithScheme(url)[..7] == "http://" && WithScheme(url)[7..] == url
    ensures WithScheme(WithScheme(url)) == WithScheme(url)
  {
    if !("http://" <= url || "https://" <= url) {
      var u := "http://" + url;
      assert u[..7] == "http://";
      assert u[7..] == url;
    }
  }

  /** The target sent to the backend: only the HTTP check defaults the scheme. */
  function Target(kind: CheckKind, target: string): string
  {
    if kind == Http then WithScheme(target) else target
  }

  /** Every complete poll, the only kind the client hands on, can be
      normalized. */
  predicate PollsParsable(kind: CheckKind, details: map<string, NodeInfo>, polls: seq<PollReply>)
  {
    forall k :: 0 <= k < |polls| && polls[k].PollData? && AllResponded(polls[k].data) ==>
      Normalizable(kind, details, polls[k].data)
  }

  /** Whatever the job client returns can be normalized: it is one of the
      polled payloads or an error dict of the client's own. */
  lemma ClientReplyParsable(kind: CheckKind, host: string, details: map<string, NodeInfo>,
                            submits: seq<SubmitReply>, polls: seq<PollReply>, clock: seq<real>)
    requires |submits| >= MaxRetries && PollOracle(polls, clock) && PollsParsable(kind, details, polls)
    ensures Normalizable(kind, details, SubmitLoop(kind, host, details.Keys, submits, polls, clock, 0).reply)
  {
    SubmitReplyCases(kind, host, details.Keys, submits, polls, clock, 0);
    var r := SubmitLoop(kind, host, details.Keys, submits, polls, clock, 0).reply;
    if k :| 0 <= k < MaxRetries && submits[k].SubmitResponse? && !MissingId(submits[k].requestId)
            && r == PollLoop(ResultUrl(submits[k].requestId.value), polls, clock, 0, 0.0).reply {
      PollReplyCases(ResultUrl(submits[k].requestId.value), polls, clock, 0, 0.0);
    }
  }

  /** One global check (`ping`, `http_check`, `tcp_check`, `udp_check` or
      `dns_check`): submit and wait, then normalize. */
  method RunCheck(kind: CheckKind, target: string, details: map<string, NodeInfo>,
                  submits: seq<SubmitReply>, polls: seq<PollReply>, clock: seq<real>)
    returns (out: Normalized, trace: seq<Action>)
    requires |submits| >= MaxRetries && PollOracle(polls, clock) && PollsParsable(kind, details, polls)
    ensures var run := SubmitLoop(kind, Target(kind, target), details.Keys, submits, polls, clock, 0);
      && trace == run.trace
      && Normalizable(kind, details, run.reply)
      && out == NormalizeSpec(kind, details, run.reply)
  {
    var host := Target(kind, target);
    var reply;
    reply, trace := CheckAndWait(kind, host, details.Keys, submits, polls, clock);
    ClientReplyParsable(kind, host, details, submits, polls, clock);
    out := Normalize(kind, details, reply);
  }

  /** A check whose submission never succeeds reports the client's error as
      the whole result, with no location records. */
  lemma SubmissionFailureIsTopError(kind: CheckKind, host: string, details: map<string, NodeInfo>,
                                    submits: seq<SubmitReply>, polls: seq<PollReply>, clock: seq<real>)
    requires |submits| >= MaxRetries && PollOracle(polls, clock)
    requires forall k :: 0 <= k < MaxRetries ==> submits[k].SubmitRaised?
    ensures var reply := SubmitLoop(kind, host, details.Keys, submits, polls, clock, 0).reply;
      && Normalizable(kind, details, reply)
      && NormalizeSpec(kind, details, reply) == TopError(JStr(SubmitFailedPrefix + submits[2].reason))
  {
    AlwaysRaisingGivesUp(kind, host, details.Keys, submits, polls, clock);
    ErrorPassedOn(kind, details, SubmitFailedPrefix + submits[2].reason);
  }
}
