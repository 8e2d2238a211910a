// How sessions come about and how long they are accepted, told from the history of
// requests and their answers alone.
module SessionHistory {
  import opened Wrappers
  import opened Filters
  import opened Durations
  import opened Preconditions
  import opened AccessKeys

  // ---- logging in ----

  // The key is stored, ACTIVE, and not past its expiry.
  predicate Usable(c: Control, key: Option<string>, now: Time) {
    && key.Some? && key.value in c.keys
    && c.keys[key.value].status == ACTIVE
    && (c.keys[key.value].expires.Some? ==> now < c.keys[key.value].expires.value)
  }

  // The log holds eight refusals of the client that are no older than a minute.
  predicate RefusedEight(c: Control, source: string, now: Time) {
    |set i | 0 <= i < |c.audit| && RefusedWithin(c.audit[i].content, source, now)| >= 8
  }

  predicate RefusedWithin(row: AuditContent, source: string, now: Time) {
    row.event == "RATE_LIMIT" && row.source == Some(source) && now - row.createdAt <= 60
  }

  lemma {:induction false} FailuresCounted(audit: seq<AuditRow>, source: string, now: Time)
    ensures |Filter(audit, Failure(source, now))| ==
            |set i | 0 <= i < |audit| && RefusedWithin(audit[i].content, source, now)|
  {
    var counted := set i | 0 <= i < |audit| && RefusedWithin(audit[i].content, source, now);
    if audit == [] {
      assert counted == {};
    } else {
      var n := |audit| - 1;
      FailuresCounted(audit[..n], source, now);
      var before := set i | 0 <= i < |audit[..n]| && RefusedWithin(audit[..n][i].content, source, now);
      if RefusedWithin(audit[n].content, source, now) {
        assert counted == before + {n};
      } else {
        assert counted == before;
      }
    }
  }

  // A login succeeds exactly when its client was not refused eight times within a minute,
  // its key is usable and its secret was verified. Success stores one session, for that key, of a week at most;
  // failure leaves keys and sessions alone and records one attempt.
  lemma LoginExactly(c: Control, source: string, key: Option<string>, verified: bool, sid: string, now: Time)
    ensures var (after, outcome) := Serve(c, Login(source, key, verified, sid), now);
            && (outcome == Done <==> !RefusedEight(c, source, now) && Usable(c, key, now) && verified)
            && |after.audit| == |c.audit| + 1 && after.audit[..|c.audit|] == c.audit
            && after.epoch == c.epoch
            && var row := after.audit[|c.audit|].content;
               && row.createdAt == now
               && (outcome == Done ==>
                     && key.Some? && key.value in c.keys && row.event == "LOGIN_SUCCESS" && row.key == key
                     && after.sessions == c.sessions[sid := Session(key.value, now, now, now + IDLE, now + WEEK,
                                                                    None, c.epoch)]
                     && after.keys == c.keys[key.value := c.keys[key.value].(lastUsed := Some(now))])
               && (outcome != Done ==>
                     && after.keys == c.keys && after.sessions == c.sessions
                     && row.event == "RATE_LIMIT" && row.key == None && row.source == Some(source)
                     && outcome == if RefusedEight(c, source, now) then RateLimited else Unauthenticated)
  {
    FailuresCounted(c.audit, source, now);
    hide Failure;
    hide Filter;
  }

  // The call at position n is the successful login that issued the session.
  ghost predicate IssuedAt(c: Control, calls: seq<Call>, sid: string, s: Session, n: nat) {
    && n < |calls|
    && calls[n].request.Login? && calls[n].request == Login(calls[n].request.source, Some(s.key), true, sid)
    && !RefusedEight(RunOf(c, calls[..n]), calls[n].request.source, calls[n].now)
    && calls[n].now == s.issued
    && Usable(RunOf(c, calls[..n]), Some(s.key), calls[n].now)
  }

  // What about a session no request ever changes.
  ghost predicate SameOrigin(s: Session, t: Session) {
    s.key == t.key && s.issued == t.issued && s.absoluteExpires == t.absoluteExpires && s.epoch == t.epoch
  }

  lemma SessionsKept(c: Control, r: Request, now: Time, sid: string)
    requires FreshIds(c, r)
    ensures var after := Serve(c, r, now).0;
            && after.epoch == c.epoch
            && (sid in c.sessions ==> sid in after.sessions && SameOrigin(c.sessions[sid], after.sessions[sid]))
            && (sid !in c.sessions && sid in after.sessions ==>
                  var s := after.sessions[sid];
                  && r.Login? && r == Login(r.source, Some(s.key), true, sid) && !RefusedEight(c, r.source, now)
                  && Usable(c, Some(s.key), now) && s.issued == now)
  {
    hide AppendedFrom;
    hide AllAppended;
    hide SomeActive;
    hide ActiveKeys;
    hide Limited;
    hide RefusedEight;
    match r {
      case Login(source, key, verified, id) =>
        LoginExactly(c, source, key, verified, id, now);
        hide Serve;
        hide Usable;
      case _ => hide KeyActive;
    }
  }

  // Over every run, each session that was not there at the start was issued by a login
  // whose client was not limited, with the usable key the session names and its secret verified.
  lemma {:induction false} EverySessionIssued(c: Control, calls: seq<Call>, sid: string)
    requires Proper(c, calls) && sid in RunOf(c, calls).sessions && sid !in c.sessions
    ensures exists n: nat :: IssuedAt(c, calls, sid, RunOf(c, calls).sessions[sid], n)
  {
    hide Serve;
    hide FreshIds;
    hide Usable;
    var n := |calls| - 1;
    var before, s := RunOf(c, calls[..n]), RunOf(c, calls).sessions[sid];
    ProperPrefix(c, calls);
    SessionsKept(before, calls[n].request, calls[n].now, sid);
    if sid in before.sessions {
      EverySessionIssued(c, calls[..n], sid);
      var k: nat :| IssuedAt(c, calls[..n], sid, before.sessions[sid], k);
      assert calls[..n][..k] == calls[..k];
      assert IssuedAt(c, calls, sid, s, k);
    } else {
      assert IssuedAt(c, calls, sid, s, n);
    }
  }

  // ---- how long a session is accepted ----

  // The answered request ends the session: it logs out of it, or ends or replaces its key.
  predicate Ends(r: Request, outcome: Outcome, sid: string, key: string) {
    outcome == Done && r.Submit? &&
    match r.action
    case Logout => r.sid == sid
    case Revoke(k, _, _) => k == key
    case Rotate(k, _, _) => k == key
    case _ => false
  }

  // The session's request was let in, whatever became of it.
  predicate LetIn(r: Request, outcome: Outcome, sid: string) {
    outcome != Unauthenticated && (r == Visit(sid) || (r.Submit? && r.sid == sid))
  }

  function Answer(c: Control, calls: seq<Call>): Outcome
    requires calls != []
  {
    var n := |calls| - 1;
    Serve(RunOf(c, calls[..n]), calls[n].request, calls[n].now).1
  }

  // Some request of the run ended the session.
  predicate Ended(c: Control, calls: seq<Call>, sid: string, key: string) {
    calls != [] &&
    (Ended(c, calls[..|calls| - 1], sid, key) || Ends(calls[|calls| - 1].request, Answer(c, calls), sid, key))
  }

  // When the session was last let in, or else issued.
  function LastLetIn(c: Control, calls: seq<Call>, sid: string, issued: Time): Time {
    if calls == [] then issued
    else
      var last := calls[|calls| - 1];
      if LetIn(last.request, Answer(c, calls), sid) then last.now
      else LastLetIn(c, calls[..|calls| - 1], sid, issued)
  }

  // The stored rows agree with the history.
  ghost predicate Tracks(c: Control, sid: string, key: string, expires: Option<Time>, issued: Time, seen: Time,
                         ended: bool)
  {
    && sid in c.sessions && key in c.keys
    && var s, k := c.sessions[sid], c.keys[key];
       && s.key == key && s.epoch == c.epoch && k.expires == expires
       && s.absoluteExpires == issued + WEEK && s.idleExpires == Sooner(seen + IDLE, issued + WEEK)
       && (ended <==> s.revokedAt.Some? || k.status != ACTIVE)
  }

  lemma TrackStep(c: Control, r: Request, now: Time, sid: string, key: string, expires: Option<Time>, issued: Time,
                  seen: Time, ended: bool)
    requires Tracks(c, sid, key, expires, issued, seen, ended) && FreshIds(c, r)
    ensures var (after, outcome) := Serve(c, r, now);
            Tracks(after, sid, key, expires, issued, if LetIn(r, outcome, sid) then now else seen,
                   ended || Ends(r, outcome, sid, key))
  {
    hide Appended;
    hide AllAppended;
    hide SomeActive;
    hide ActiveKeys;
    match r {
      case Login(source, k, verified, id) => LoginExactly(c, source, k, verified, id, now);
      case Issue(_, _, _) =>
      case Visit(_) => hide Perform;
      case Submit(id, csrf, action) =>
        if Accepts(c, id, now) && csrf {
          TouchedTracks(c, id, now, sid, key, expires, issued, seen, ended);
          PerformTracks(Touched(c, id, now), id, action, now, sid, key, expires, issued,
                        if id == sid then now else seen, ended);
        }
        hide Perform;
    }
  }

  lemma TouchedTracks(c: Control, id: string, now: Time, sid: string, key: string, expires: Option<Time>,
                      issued: Time, seen: Time, ended: bool)
    requires Tracks(c, sid, key, expires, issued, seen, ended) && id in c.sessions
    ensures Tracks(Touched(c, id, now), sid, key, expires, issued, if id == sid then now else seen, ended)
  {
  }

  lemma PerformTracks(c: Control, id: string, action: Action, now: Time, sid: string, key: string,
                      expires: Option<Time>, issued: Time, seen: Time, ended: bool)
    requires Tracks(c, sid, key, expires, issued, seen, ended) && FreshIds(c, Submit(id, true, action))
    ensures var (after, outcome) := Perform(c, id, action, now);
            && outcome != Unauthenticated
            && Tracks(after, sid, key, expires, issued, seen,
                      ended || Ends(Submit(id, true, action), outcome, sid, key))
  {
    hide Appended;
    hide AllAppended;
    hide ActiveKeys;
  }

  lemma {:induction false} RunTracks(c: Control, calls: seq<Call>, sid: string, key: string, expires: Option<Time>,
                                     issued: Time)
    requires Tracks(c, sid, key, expires, issued, issued, false) && Proper(c, calls)
    ensures Tracks(RunOf(c, calls), sid, key, expires, issued, LastLetIn(c, calls, sid, issued),
                   Ended(c, calls, sid, key))
  {
    hide Serve;
    hide FreshIds;
    hide Tracks;
    if calls != [] {
      var n := |calls| - 1;
      ProperPrefix(c, calls);
      RunTracks(c, calls[..n], sid, key, expires, issued);
      TrackStep(RunOf(c, calls[..n]), calls[n].request, calls[n].now, sid, key, expires, issued,
                LastLetIn(c, calls[..n], sid, issued), Ended(c, calls[..n], sid, key));
    }
  }

  // From a successful login on, through any run of requests at any times, the session is
  // accepted exactly as long as nothing has ended it, its key's expiry has not passed,
  // a week has not passed since the login, and half a day has not passed since it was
  // last let in.
  lemma AcceptedExactly(c: Control, source: string, key: string, sid: string, issued: Time, calls: seq<Call>, now: Time)
    requires Usable(c, Some(key), issued) && sid !in c.sessions && !RefusedEight(c, source, issued)
    requires Proper(Serve(c, Login(source, Some(key), true, sid), issued).0, calls)
    ensures var start := Serve(c, Login(source, Some(key), true, sid), issued).0;
            Accepts(RunOf(start, calls), sid, now) <==>
              && !Ended(start, calls, sid, key)
              && (c.keys[key].expires.Some? ==> now < c.keys[key].expires.value)
              && now - issued < WEEK
              && now - LastLetIn(start, calls, sid, issued) < 12 * HOUR
  {
    LoginExactly(c, source, Some(key), true, sid, issued);
    var start := Serve(c, Login(source, Some(key), true, sid), issued).0;
    hide Serve;
    assert Tracks(start, sid, key, c.keys[key].expires, issued, issued, false);
    RunTracks(start, calls, sid, key, c.keys[key].expires, issued);
    hide Proper;
    hide RunOf;
    hide Ended;
    hide LastLetIn;
  }

  // A session of another epoch is never accepted.
  lemma {:induction false} OtherEpochNever(c: Control, calls: seq<Call>, sid: string, now: Time)
    requires Proper(c, calls) && sid in c.sessions && c.sessions[sid].epoch != c.epoch
    ensures sid in RunOf(c, calls).sessions
    ensures SameOrigin(c.sessions[sid], RunOf(c, calls).sessions[sid]) && RunOf(c, calls).epoch == c.epoch
    ensures !Accepts(RunOf(c, calls), sid, now)
  {
    hide Serve;
    hide FreshIds;
    hide KeyActive;
    if calls != [] {
      var n := |calls| - 1;
      ProperPrefix(c, calls);
      OtherEpochNever(c, calls[..n], sid, now);
      SessionsKept(RunOf(c, calls[..n]), calls[n].request, calls[n].now, sid);
    }
  }
}
