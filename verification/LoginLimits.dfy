// How often a client may fail to log in, told from the history of its attempts.
module LoginLimits {
  import opened Wrappers
  import opened Filters
  import opened Durations
  import opened AccessKeys
  import opened SessionHistory

  // The client tried to log in, not before the given time, and was refused for any reason.
  predicate Refusal(r: Request, now: Time, outcome: Outcome, source: string, since: Time) {
    r.Login? && r.source == source && now >= since && outcome != Done
  }

  // Refusals of the client over a run, not before the given time.
  function Refusals(c: Control, calls: seq<Call>, source: string, since: Time): nat {
    if calls == [] then 0
    else
      var n := |calls| - 1;
      Refusals(c, calls[..n], source, since) +
      if Refusal(calls[n].request, calls[n].now, Answer(c, calls), source, since) then 1 else 0
  }

  // Those refused because the key or its secret was wrong, and not for the limit.
  function Guesses(c: Control, calls: seq<Call>, source: string, since: Time): nat {
    if calls == [] then 0
    else
      var n := |calls| - 1;
      Guesses(c, calls[..n], source, since) +
      if Refusal(calls[n].request, calls[n].now, Answer(c, calls), source, since) && Answer(c, calls) == Unauthenticated
      then 1 else 0
  }

  function FailureCount(audit: seq<AuditRow>, source: string, at: Time): nat {
    |Filter(audit, Failure(source, at))|
  }

  lemma AppendedCount(audit: seq<AuditRow>, event: string, key: Option<string>, from: Option<string>, now: Time,
                      source: string, at: Time)
    ensures FailureCount(AppendedFrom(audit, event, key, from, now), source, at) ==
            FailureCount(audit, source, at) +
              if event == "RATE_LIMIT" && from == Some(source) && now >= at - MINUTE then 1 else 0
  {
  }

  lemma {:induction false} OthersCount(audit: seq<AuditRow>, events: seq<string>, now: Time, source: string, at: Time)
    ensures FailureCount(AllAppended(audit, events, now), source, at) == FailureCount(audit, source, at)
  {
    hide FailureCount;
    hide AppendedFrom;
    if events != [] {
      var n := |events| - 1;
      OthersCount(audit, events[..n], now, source, at);
      AppendedCount(AllAppended(audit, events[..n], now), events[n], None, None, now, source, at);
    }
  }

  // Each request adds exactly its own refusal to the count.
  lemma StepCount(c: Control, r: Request, now: Time, source: string, at: Time)
    ensures var (after, outcome) := Serve(c, r, now);
            FailureCount(after.audit, source, at) ==
              FailureCount(c.audit, source, at) + if Refusal(r, now, outcome, source, at - MINUTE) then 1 else 0
  {
    hide ActiveKeys;
    hide SomeActive;
    hide Closed;
    hide Limited;
    hide FailureCount;
    hide AppendedFrom;
    forall event, key, from
      ensures FailureCount(AppendedFrom(c.audit, event, key, from, now), source, at) ==
              FailureCount(c.audit, source, at) +
                if event == "RATE_LIMIT" && from == Some(source) && now >= at - MINUTE then 1 else 0
    {
      AppendedCount(c.audit, event, key, from, now, source, at);
    }
    if r.Submit? && r.action.Other? { OthersCount(c.audit, r.action.events, now, source, at); }
    hide AllAppended;
  }

  lemma {:induction false} RunCount(c: Control, calls: seq<Call>, source: string, at: Time)
    ensures FailureCount(RunOf(c, calls).audit, source, at) ==
            FailureCount(c.audit, source, at) + Refusals(c, calls, source, at - MINUTE)
  {
    hide Serve;
    hide FailureCount;
    hide Refusal;
    if calls != [] {
      var n := |calls| - 1;
      RunCount(c, calls[..n], source, at);
      StepCount(RunOf(c, calls[..n]), calls[n].request, calls[n].now, source, at);
    }
  }

  // Whatever key it presents, a client is turned away for the limit exactly when it was
  // refused eight times within the last minute, be it for its keys or for the limit
  // itself. What other clients do never counts.
  lemma LimitedExactly(c: Control, calls: seq<Call>, source: string, key: Option<string>, verified: bool, sid: string,
                       now: Time)
    requires forall i :: 0 <= i < |c.audit| ==> c.audit[i].content.source != Some(source)
    ensures Serve(RunOf(c, calls), Login(source, key, verified, sid), now).1 == RateLimited <==>
            Refusals(c, calls, source, now - 60) >= 8
  {
    RunCount(c, calls, source, now);
    NoneCounted(c.audit, source, now);
    hide Filter;
    hide Failure;
    hide RunOf;
  }

  lemma {:induction false} NoneCounted(audit: seq<AuditRow>, source: string, at: Time)
    requires forall i :: 0 <= i < |audit| ==> audit[i].content.source != Some(source)
    ensures FailureCount(audit, source, at) == 0
  {
    if audit != [] { NoneCounted(audit[..|audit| - 1], source, at); }
  }

  lemma {:induction false} FewerLater(c: Control, calls: seq<Call>, source: string, since: Time, later: Time)
    requires since <= later
    ensures Guesses(c, calls, source, later) <= Refusals(c, calls, source, since)
  {
    hide Serve;
    if calls != [] { FewerLater(c, calls[..|calls| - 1], source, since, later); }
  }

  // In no minute can a client have more than eight wrong keys looked at, however often it
  // tries and whatever else is requested in between.
  lemma {:induction false} EightGuessesAMinute(c: Control, calls: seq<Call>, source: string, since: Time)
    requires forall n :: 0 <= n < |calls| ==> calls[n].now <= since + 60
    ensures Guesses(c, calls, source, since) <= 8
  {
    hide Serve;
    hide FailureCount;
    if calls != [] {
      var n := |calls| - 1;
      EightGuessesAMinute(c, calls[..n], source, since);
      var last := calls[n];
      if Refusal(last.request, last.now, Answer(c, calls), source, since) && Answer(c, calls) == Unauthenticated {
        RunCount(c, calls[..n], source, last.now);
        NotLimited(RunOf(c, calls[..n]), last.request, last.now);
        FewerLater(c, calls[..n], source, last.now - 60, since);
      }
    }
  }

  lemma NotLimited(c: Control, r: Request, now: Time)
    requires r.Login? && Serve(c, r, now).1 == Unauthenticated
    ensures FailureCount(c.audit, r.source, now) < 8
  {
    hide Filter;
    hide Failure;
  }
}
