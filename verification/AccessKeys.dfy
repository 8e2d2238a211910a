// General access keys, owner sessions and the bootstrap audit chain, as sequential
// transactions over the control database.
module AccessKeys {
  import opened Wrappers
  import opened Filters
  import opened Durations
  import opened Preconditions

  type Time = int

  const IDLE: int := 12 * HOUR

  datatype KeyStatus = ACTIVE | REVOKED | EXPIRED

  // A key is only ever ended, never reactivated.
  type Ended = s: KeyStatus | s != ACTIVE witness REVOKED

  datatype AccessKey = AccessKey(caption: string, status: KeyStatus, expires: Option<Time>, lastUsed: Option<Time>,
                                 revokedAt: Option<Time>, revision: int)

  datatype Session = Session(key: string, issued: Time, lastSeen: Time, idleExpires: Time, absoluteExpires: Time,
                             revokedAt: Option<Time>, epoch: int)

  // SHA-256 over the canonical JSON of a row is modelled as the row's content.
  datatype Digest = Sha256(content: AuditContent)

  // source is the client a refused login came from.
  datatype AuditContent = AuditContent(event: string, key: Option<string>, source: Option<string>,
                                       previous: Option<Digest>, createdAt: Time)

  datatype AuditRow = AuditRow(content: AuditContent, hash: Digest)

  datatype Control = Control(keys: map<string, AccessKey>, sessions: map<string, Session>, epoch: int,
                             audit: seq<AuditRow>)

  datatype Outcome = Done | Unauthenticated | CsrfRequired | NotFound | Refused(mismatch: Mismatch) |
                     LastActiveKeyRequired | RateLimited | InitialKeyExists

  // ---- helpers ----

  function AppendedFrom(audit: seq<AuditRow>, event: string, key: Option<string>, source: Option<string>,
                        now: Time): seq<AuditRow> {
    var previous := if audit == [] then None else Some(audit[|audit| - 1].hash);
    var content := AuditContent(event, key, source, previous, now);
    audit + [AuditRow(content, Sha256(content))]
  }

  function Appended(audit: seq<AuditRow>, event: string, key: Option<string>, now: Time): seq<AuditRow> {
    AppendedFrom(audit, event, key, None, now)
  }

  function AllAppended(audit: seq<AuditRow>, events: seq<string>, now: Time): seq<AuditRow> {
    if events == [] then audit
    else
      var n := |events| - 1;
      Appended(AllAppended(audit, events[..n], now), events[n], None, now)
  }

  predicate KeyActive(k: AccessKey, now: Time) {
    k.status == ACTIVE && (k.expires.None? || k.expires.value > now)
  }

  // Refused logins of a client within the last minute.
  function Failure(source: string, now: Time): AuditRow -> bool {
    (row: AuditRow) =>
      row.content.event == "RATE_LIMIT" && row.content.source == Some(source) && row.content.createdAt >= now - MINUTE
  }

  predicate Limited(audit: seq<AuditRow>, source: string, now: Time) {
    |Filter(audit, Failure(source, now))| >= 8
  }

  // What the session check accepts.
  predicate Accepts(c: Control, sid: string, now: Time) {
    && sid in c.sessions
    && var s := c.sessions[sid];
       && s.key in c.keys
       && s.revokedAt.None?
       && s.epoch == c.epoch
       && s.absoluteExpires > now
       && s.idleExpires > now
       && KeyActive(c.keys[s.key], now)
  }

  function Sooner(a: Time, b: Time): Time {
    if a <= b then a else b
  }

  // An accepted session is touched: its idle window moves, never past its end.
  function Touched(c: Control, sid: string, now: Time): Control
    requires sid in c.sessions
  {
    var s := c.sessions[sid];
    c.(sessions := c.sessions[sid := s.(lastSeen := now, idleExpires := Sooner(now + IDLE, s.absoluteExpires))])
  }

  predicate SomeActive(keys: map<string, AccessKey>) {
    exists k :: k in keys && keys[k].status == ACTIVE
  }

  function ActiveKeys(keys: map<string, AccessKey>): set<string> {
    set k | k in keys && keys[k].status == ACTIVE
  }

  // Revokes every unrevoked session of a key.
  function Closed(sessions: map<string, Session>, key: string, now: Time): map<string, Session> {
    map sid | sid in sessions ::
      if sessions[sid].key == key && sessions[sid].revokedAt.None? then sessions[sid].(revokedAt := Some(now))
      else sessions[sid]
  }

  function Ending(k: AccessKey, to: Ended, now: Time): AccessKey {
    k.(status := to, revokedAt := Some(now), revision := k.revision + 1)
  }

  function EndedEvent(to: Ended): string {
    if to == REVOKED then "KEY_REVOKED" else "KEY_EXPIRED"
  }

  function Fresh(caption: string, expires: Option<Time>): AccessKey {
    AccessKey(caption, ACTIVE, expires, None, None, 1)
  }

  // ---- requests ----

  datatype Action =
    | Logout
    | Create(caption: string, expires: Option<Time>, id: string)
    | Rename(key: string, caption: string, header: IfMatch)
    | Revoke(key: string, to: Ended, header: IfMatch)
    | Rotate(key: string, header: IfMatch, id: string)
    // a configuration or database handler, seen from here by what it appends
    | Other(events: seq<string>)

  datatype Request =
    | Issue(caption: string, expires: Option<Time>, id: string)
    | Login(source: string, key: Option<string>, verified: bool, sid: string)
    | Visit(sid: string)
    | Submit(sid: string, csrf: bool, action: Action)

  function Perform(c: Control, sid: string, action: Action, now: Time): (Control, Outcome) {
    match action
    case Logout =>
      if sid !in c.sessions then (c, Done)
      else (c.(sessions := c.sessions[sid := c.sessions[sid].(revokedAt := Some(now))],
               audit := Appended(c.audit, "SESSION_REVOKED", Some(c.sessions[sid].key), now)), Done)
    case Create(caption, expires, id) =>
      (c.(keys := c.keys[id := Fresh(caption, expires)],
          audit := Appended(c.audit, "KEY_CREATED", Some(id), now)), Done)
    case Rename(key, caption, header) =>
      if key !in c.keys then (c, NotFound)
      else if Precondition(header, c.keys[key].revision).Some?
      then (c, Refused(Precondition(header, c.keys[key].revision).value))
      else (c.(keys := c.keys[key := c.keys[key].(caption := caption, revision := c.keys[key].revision + 1)],
               audit := Appended(c.audit, "KEY_RENAMED", Some(key), now)), Done)
    case Revoke(key, to, header) =>
      if key !in c.keys then (c, NotFound)
      else if Precondition(header, c.keys[key].revision).Some?
      then (c, Refused(Precondition(header, c.keys[key].revision).value))
      else if c.keys[key].status == ACTIVE && |ActiveKeys(c.keys)| <= 1 then (c, LastActiveKeyRequired)
      else (c.(keys := c.keys[key := Ending(c.keys[key], to, now)],
               sessions := Closed(c.sessions, key, now),
               audit := Appended(c.audit, EndedEvent(to), Some(key), now)), Done)
    case Rotate(key, header, id) =>
      if key !in c.keys then (c, NotFound)
      else if Precondition(header, c.keys[key].revision).Some?
      then (c, Refused(Precondition(header, c.keys[key].revision).value))
      else (c.(keys := c.keys[id := Fresh(c.keys[key].caption, c.keys[key].expires)]
                             [key := Ending(c.keys[key], REVOKED, now)],
               sessions := Closed(c.sessions, key, now),
               audit := Appended(c.audit, "KEY_ROTATED", Some(id), now)), Done)
    case Other(events) => (c.(audit := AllAppended(c.audit, events, now)), Done)
  }

  function Serve(c: Control, r: Request, now: Time): (Control, Outcome) {
    match r
    case Issue(caption, expires, id) =>
      if SomeActive(c.keys) then (c, InitialKeyExists)
      else (c.(keys := c.keys[id := Fresh(caption, expires)],
               audit := Appended(c.audit, "KEY_CREATED", Some(id), now)), Done)
    case Login(source, key, verified, sid) =>
      var refused := c.(audit := AppendedFrom(c.audit, "RATE_LIMIT", None, Some(source), now));
      if Limited(c.audit, source, now) then (refused, RateLimited)
      else if key.None? || key.value !in c.keys || !KeyActive(c.keys[key.value], now) || !verified
      then (refused, Unauthenticated)
      else (c.(keys := c.keys[key.value := c.keys[key.value].(lastUsed := Some(now))],
               sessions := c.sessions[sid := Session(key.value, now, now, now + IDLE, now + WEEK, None, c.epoch)],
               audit := Appended(c.audit, "LOGIN_SUCCESS", key, now)), Done)
    case Visit(sid) =>
      if Accepts(c, sid, now) then (Touched(c, sid, now), Done) else (c, Unauthenticated)
    case Submit(sid, csrf, action) =>
      if !Accepts(c, sid, now) then (c, Unauthenticated)
      else if !csrf then (Touched(c, sid, now), CsrfRequired)
      else Perform(Touched(c, sid, now), sid, action, now)
  }

  // New identifiers are random and never collide with stored ones.
  predicate FreshIds(c: Control, r: Request) {
    match r
    case Issue(_, _, id) => id !in c.keys
    case Login(_, _, _, sid) => sid !in c.sessions
    case Visit(_) => true
    case Submit(_, _, action) =>
      match action
      case Create(_, _, id) => id !in c.keys
      case Rotate(_, _, id) => id !in c.keys
      case _ => true
  }

  // ---- what every request keeps ----

  // The hash a row at position i has to carry.
  ghost function HashBefore(audit: seq<AuditRow>, i: nat): Option<Digest>
    requires i <= |audit|
  {
    if i == 0 then None else Some(audit[i - 1].hash)
  }

  ghost predicate Linked(audit: seq<AuditRow>) {
    forall i :: 0 <= i < |audit| ==>
      audit[i].hash == Sha256(audit[i].content) && audit[i].content.previous == HashBefore(audit, i)
  }

  ghost predicate SessionsCovered(c: Control) {
    forall sid :: sid in c.sessions ==>
      var s := c.sessions[sid];
      && s.key in c.keys
      && (s.revokedAt.None? ==> c.keys[s.key].status == ACTIVE)
      && s.idleExpires <= s.absoluteExpires == s.issued + WEEK
  }

  ghost predicate Sound(c: Control) {
    Linked(c.audit) && SessionsCovered(c)
  }

  lemma AppendedLinked(audit: seq<AuditRow>, event: string, key: Option<string>, source: Option<string>, now: Time)
    requires Linked(audit)
    ensures Linked(AppendedFrom(audit, event, key, source, now))
  {
    var after := AppendedFrom(audit, event, key, source, now);
    forall i | 0 <= i < |after|
      ensures after[i].hash == Sha256(after[i].content) && after[i].content.previous == HashBefore(after, i)
    {
      assert HashBefore(after, i) == HashBefore(audit, i);
      if i < |audit| { assert after[i] == audit[i]; }
    }
  }

  lemma {:induction false} AllAppendedLinked(audit: seq<AuditRow>, events: seq<string>, now: Time)
    requires Linked(audit)
    ensures Linked(AllAppended(audit, events, now))
  {
    hide Linked;
    hide AppendedFrom;
    if events != [] {
      var n := |events| - 1;
      AllAppendedLinked(audit, events[..n], now);
      AppendedLinked(AllAppended(audit, events[..n], now), events[n], None, None, now);
    }
  }

  lemma TouchedSound(c: Control, sid: string, now: Time)
    requires Sound(c) && sid in c.sessions
    ensures Sound(Touched(c, sid, now))
  {
  }

  lemma PerformSound(c: Control, sid: string, action: Action, now: Time)
    requires Sound(c) && FreshIds(c, Submit(sid, true, action))
    ensures Sound(Perform(c, sid, action, now).0)
    ensures SomeActive(c.keys) ==> SomeActive(Perform(c, sid, action, now).0.keys)
  {
    PerformLinked(c, sid, action, now);
    PerformCovered(c, sid, action, now);
    if SomeActive(c.keys) { StillActive(c, sid, action, now); }
    hide Perform;
    hide Linked;
    hide SessionsCovered;
    hide SomeActive;
  }

  lemma PerformLinked(c: Control, sid: string, action: Action, now: Time)
    requires Linked(c.audit)
    ensures Linked(Perform(c, sid, action, now).0.audit)
  {
    hide Linked;
    hide Appended;
    hide Closed;
    AuditStays(c.audit, now);
    if action.Other? { AllAppendedLinked(c.audit, action.events, now); }
    hide AllAppended;
  }

  lemma PerformCovered(c: Control, sid: string, action: Action, now: Time)
    requires SessionsCovered(c) && FreshIds(c, Submit(sid, true, action))
    ensures SessionsCovered(Perform(c, sid, action, now).0)
  {
    hide Appended;
    hide AllAppended;
    hide ActiveKeys;
  }

  lemma AuditStays(audit: seq<AuditRow>, now: Time)
    requires Linked(audit)
    ensures forall event, key :: Linked(Appended(audit, event, key, now))
    ensures forall event, key, source :: Linked(AppendedFrom(audit, event, key, source, now))
  {
    hide Linked;
    hide AppendedFrom;
    forall event, key, source
      ensures Linked(AppendedFrom(audit, event, key, source, now))
    {
      AppendedLinked(audit, event, key, source, now);
    }
    forall event, key
      ensures Linked(Appended(audit, event, key, now))
    {
      assert Linked(AppendedFrom(audit, event, key, None, now));
    }
  }

  lemma StillActive(c: Control, sid: string, action: Action, now: Time)
    requires SomeActive(c.keys) && FreshIds(c, Submit(sid, true, action))
    ensures SomeActive(Perform(c, sid, action, now).0.keys)
  {
    hide Appended;
    hide Closed;
    var after := Perform(c, sid, action, now).0.keys;
    var k :| k in c.keys && c.keys[k].status == ACTIVE;
    match action {
      case Revoke(key, to, header) =>
        if key == k && |ActiveKeys(c.keys)| > 1 {
          OtherActive(c.keys, k);
          var other :| other in c.keys && other != k && c.keys[other].status == ACTIVE;
          assert other in after && after[other].status == ACTIVE;
        } else {
          assert k in after && after[k].status == ACTIVE;
        }
      case Rotate(key, header, id) =>
        if key == k && after != c.keys {
          assert id in after && after[id].status == ACTIVE;
        } else {
          assert k in after && after[k].status == ACTIVE;
        }
      case _ => assert k in after && after[k].status == ACTIVE;
    }
  }

  lemma OtherActive(keys: map<string, AccessKey>, k: string)
    requires k in keys && keys[k].status == ACTIVE && |ActiveKeys(keys)| > 1
    ensures exists other :: other in keys && other != k && keys[other].status == ACTIVE
  {
    var rest := ActiveKeys(keys) - {k};
    assert |rest| > 0;
    var other :| other in rest;
  }

  lemma ServeSound(c: Control, r: Request, now: Time)
    requires Sound(c) && FreshIds(c, r)
    ensures Sound(Serve(c, r, now).0)
    ensures SomeActive(c.keys) ==> SomeActive(Serve(c, r, now).0.keys)
  {
    hide Linked;
    hide Appended;
    hide AppendedFrom;
    hide Perform;
    hide Limited;
    AuditStays(c.audit, now);
    match r {
      case Submit(sid, csrf, action) =>
        if Accepts(c, sid, now) {
          TouchedSound(c, sid, now);
          PerformSound(Touched(c, sid, now), sid, action, now);
        }
      case Visit(sid) =>
        if Accepts(c, sid, now) { TouchedSound(c, sid, now); }
      case Login(source, key, verified, sid) =>
        if SomeActive(c.keys) {
          var k :| k in c.keys && c.keys[k].status == ACTIVE;
          var after := Serve(c, r, now).0.keys;
          assert k in after && after[k].status == ACTIVE;
        }
      case Issue(_, _, _) =>
    }
  }

  // ---- runs ----

  datatype Call = Call(request: Request, now: Time)

  function RunOf(c: Control, calls: seq<Call>): Control {
    if calls == [] then c
    else Serve(RunOf(c, calls[..|calls| - 1]), calls[|calls| - 1].request, calls[|calls| - 1].now).0
  }

  // Identifiers are fresh whenever they are drawn.
  ghost predicate Proper(c: Control, calls: seq<Call>) {
    forall n :: 0 <= n < |calls| ==> FreshIds(RunOf(c, calls[..n]), calls[n].request)
  }

  lemma ProperPrefix(c: Control, calls: seq<Call>)
    requires calls != [] && Proper(c, calls)
    ensures Proper(c, calls[..|calls| - 1])
  {
    hide RunOf;
    hide FreshIds;
    var before := calls[..|calls| - 1];
    forall n | 0 <= n < |before|
      ensures FreshIds(RunOf(c, before[..n]), before[n].request)
    {
      assert before[..n] == calls[..n];
    }
  }

  // Over every run of requests, at any times: the audit chain stays linked, an
  // unrevoked session's key is ACTIVE, idle expiry never passes absolute expiry,
  // and once some key is ACTIVE some key always is.
  lemma {:induction false} RunSound(c: Control, calls: seq<Call>)
    requires Sound(c) && Proper(c, calls)
    ensures Sound(RunOf(c, calls))
    ensures SomeActive(c.keys) ==> SomeActive(RunOf(c, calls).keys)
  {
    hide Serve;
    hide FreshIds;
    if calls != [] {
      var n := |calls| - 1;
      ProperPrefix(c, calls);
      RunSound(c, calls[..n]);
      ServeSound(RunOf(c, calls[..n]), calls[n].request, calls[n].now);
    }
  }

  // ---- sessions end for good ----

  // The session is revoked, or its key is.
  ghost predicate Dead(c: Control, sid: string) {
    && sid in c.sessions
    && c.sessions[sid].key in c.keys
    && (c.sessions[sid].revokedAt.Some? || c.keys[c.sessions[sid].key].status != ACTIVE)
  }

  lemma DeadStays(c: Control, sid: string, r: Request, now: Time)
    requires Dead(c, sid) && FreshIds(c, r)
    ensures Dead(Serve(c, r, now).0, sid)
    ensures !Accepts(c, sid, now)
  {
    hide Appended;
    hide AllAppended;
    hide ActiveKeys;
    hide SomeActive;
  }

  // A revoked session, or one whose key was revoked, expired or rotated away, is
  // never accepted again.
  lemma {:induction false} DeadForever(c: Control, sid: string, calls: seq<Call>, now: Time)
    requires Dead(c, sid) && Proper(c, calls)
    ensures Dead(RunOf(c, calls), sid) && !Accepts(RunOf(c, calls), sid, now)
  {
    hide Serve;
    hide FreshIds;
    if calls != [] {
      var n := |calls| - 1;
      ProperPrefix(c, calls);
      DeadForever(c, sid, calls[..n], now);
      DeadStays(RunOf(c, calls[..n]), sid, calls[n].request, calls[n].now);
    }
  }

  // What makes a session dead: revoking or rotating its key.
  lemma RevokedKeyKillsSessions(c: Control, sid: string, key: string, action: Action, other: string, now: Time)
    requires Sound(c) && other in c.sessions && c.sessions[other].key == key
    requires action.Revoke? || action.Rotate?
    requires action.key == key && FreshIds(c, Submit(sid, true, action))
    requires Perform(c, sid, action, now).1 == Done
    ensures Dead(Perform(c, sid, action, now).0, other)
  {
  }

  // No session is accepted later than a week after it was issued, however often it
  // is touched.
  lemma AcceptedWithinAWeek(c: Control, calls: seq<Call>, sid: string, now: Time)
    requires Sound(c) && Proper(c, calls) && Accepts(RunOf(c, calls), sid, now)
    ensures now < RunOf(c, calls).sessions[sid].issued + WEEK
    ensures RunOf(c, calls).keys[RunOf(c, calls).sessions[sid].key].status == ACTIVE
  {
    RunSound(c, calls);
  }

  // ---- the audit chain ----

  lemma LinkedPrefix(audit: seq<AuditRow>, n: nat)
    requires Linked(audit) && n <= |audit|
    ensures Linked(audit[..n])
  {
  }

  lemma LastRow(audit: seq<AuditRow>)
    requires Linked(audit) && audit != []
    ensures var n := |audit| - 1;
            audit[n].hash == Sha256(audit[n].content) && audit[n].content.previous == HashBefore(audit, n)
  {
  }

  // Two linked chains with the same last hash are the same chain.
  lemma {:induction false} HeadDeterminesChain(a: seq<AuditRow>, b: seq<AuditRow>)
    requires Linked(a) && Linked(b) && a != [] && b != []
    requires a[|a| - 1].hash == b[|b| - 1].hash
    ensures a == b
    decreases |a|
  {
    hide Linked;
    var m, n := |a| - 1, |b| - 1;
    LastRow(a);
    LastRow(b);
    assert a[m] == b[n] && HashBefore(a, m) == HashBefore(b, n);
    if m > 0 && n > 0 {
      LinkedPrefix(a, m);
      LinkedPrefix(b, n);
      HeadDeterminesChain(a[..m], b[..n]);
      assert a == a[..m] + [a[m]] && b == b[..n] + [b[n]];
    }
  }

  // ---- what the last-key guard does and does not promise ----

  ghost predicate SomeUsable(keys: map<string, AccessKey>, now: Time) {
    exists k :: k in keys && KeyActive(keys[k], now)
  }

  // The guard counts keys by status and ignores expiry, so a successful revocation
  // leaves a key that can still log in exactly when another one could before.
  lemma RevocationKeepsUsable(c: Control, sid: string, key: string, to: Ended, header: IfMatch, now: Time)
    requires Perform(c, sid, Revoke(key, to, header), now).1 == Done
    ensures SomeUsable(Perform(c, sid, Revoke(key, to, header), now).0.keys, now) <==>
            exists other :: other in c.keys && other != key && KeyActive(c.keys[other], now)
  {
    hide Appended;
    hide Closed;
    var after := Perform(c, sid, Revoke(key, to, header), now).0.keys;
    if SomeUsable(after, now) {
      var k :| k in after && KeyActive(after[k], now);
      assert k in c.keys && k != key && KeyActive(c.keys[k], now);
    }
    if exists other :: other in c.keys && other != key && KeyActive(c.keys[other], now) {
      var other :| other in c.keys && other != key && KeyActive(c.keys[other], now);
      assert other in after && KeyActive(after[other], now);
    }
  }

  // The guard lets the last usable key go when the other ACTIVE key has run out.
  lemma LastUsableKeyCanGo()
    ensures var keys := map["a" := Fresh("owner", None), "b" := Fresh("old", Some(5))];
            var c := Control(keys, map[], 1, []);
            var r := Perform(c, "s", Revoke("a", REVOKED, Names(1)), 10);
            && SomeUsable(c.keys, 10)
            && r.1 == Done
            && SomeActive(r.0.keys)
            && !SomeUsable(r.0.keys, 10)
  {
    var keys := map["a" := Fresh("owner", None), "b" := Fresh("old", Some(5))];
    var c := Control(keys, map[], 1, []);
    assert "a" != "b" by { assert "a"[0] == 'a' && "b"[0] == 'b'; }
    assert ActiveKeys(keys) == {"a", "b"};
    assert |ActiveKeys(keys)| == 2;
    assert "a" in keys && KeyActive(keys["a"], 10);
    var after := Perform(c, "s", Revoke("a", REVOKED, Names(1)), 10).0.keys;
    assert "b" in after && after["b"].status == ACTIVE;
  }

  // ---- the handlers ----

  class ControlPlane {
    var keys: map<string, AccessKey>
    var sessions: map<string, Session>
    const epoch: int
    var audit: seq<AuditRow>

    constructor (c: Control)
      ensures Value() == c
    {
      keys, sessions, epoch, audit := c.keys, c.sessions, c.epoch, c.audit;
    }

    function Value(): Control
      reads this
    {
      Control(keys, sessions, epoch, audit)
    }

    method Audit(event: string, key: Option<string>, now: Time)
      modifies this`audit
      ensures audit == Appended(old(audit), event, key, now)
    {
      AuditFrom(event, key, None, now);
    }

    method AuditFrom(event: string, key: Option<string>, source: Option<string>, now: Time)
      modifies this`audit
      ensures audit == AppendedFrom(old(audit), event, key, source, now)
    {
      var previous := if audit == [] then None else Some(audit[|audit| - 1].hash);
      var content := AuditContent(event, key, source, previous, now);
      audit := audit + [AuditRow(content, Sha256(content))];
    }

    method SessionContext(sid: string, now: Time) returns (ok: bool)
      modifies this`sessions
      ensures ok == Accepts(old(Value()), sid, now)
      ensures Value() == if ok then Touched(old(Value()), sid, now) else old(Value())
    {
      if sid !in sessions || sessions[sid].key !in keys { return false; }
      var s := sessions[sid];
      if s.revokedAt.Some? || s.epoch != epoch || s.absoluteExpires <= now || s.idleExpires <= now ||
         !KeyActive(keys[s.key], now) {
        return false;
      }
      s := s.(lastSeen := now);
      s := s.(idleExpires := Sooner(now + IDLE, s.absoluteExpires));
      sessions := sessions[sid := s];
      return true;
    }

    method RevokeSessions(key: string, now: Time)
      modifies this`sessions
      ensures sessions == Closed(old(sessions), key, now)
    {
      var left := sessions.Keys;
      ghost var before := sessions;
      while left != {}
        invariant left <= before.Keys == sessions.Keys
        invariant forall sid :: sid in sessions ==>
                    sessions[sid] == if sid in left then before[sid] else Closed(before, key, now)[sid]
        decreases |left|
      {
        var sid :| sid in left;
        if sessions[sid].key == key && sessions[sid].revokedAt.None? {
          sessions := sessions[sid := sessions[sid].(revokedAt := Some(now))];
        }
        left := left - {sid};
      }
    }

    method RevokeKey(key: string, to: Ended, header: IfMatch, sid: string, now: Time) returns (outcome: Outcome)
      modifies this
      ensures (Value(), outcome) == Perform(old(Value()), sid, Revoke(key, to, header), now)
    {
      if key !in keys { return NotFound; }
      var mismatch := Precondition(header, keys[key].revision);
      if mismatch.Some? { return Refused(mismatch.value); }
      if keys[key].status == ACTIVE && |ActiveKeys(keys)| <= 1 { return LastActiveKeyRequired; }
      var row := keys[key];
      row := row.(status := to);
      row := row.(revokedAt := Some(now));
      row := row.(revision := row.revision + 1);
      keys := keys[key := row];
      RevokeSessions(key, now);
      Audit(if to == REVOKED then "KEY_REVOKED" else "KEY_EXPIRED", Some(key), now);
      return Done;
    }

    method RotateKey(key: string, header: IfMatch, id: string, sid: string, now: Time) returns (outcome: Outcome)
      modifies this
      ensures (Value(), outcome) == Perform(old(Value()), sid, Rotate(key, header, id), now)
    {
      if key !in keys { return NotFound; }
      var mismatch := Precondition(header, keys[key].revision);
      if mismatch.Some? { return Refused(mismatch.value); }
      var row := keys[key];
      keys := keys[id := Fresh(row.caption, row.expires)];
      keys := keys[key := row.(status := REVOKED, revokedAt := Some(now), revision := row.revision + 1)];
      RevokeSessions(key, now);
      Audit("KEY_ROTATED", Some(id), now);
      return Done;
    }

    method LogIn(source: string, key: Option<string>, verified: bool, sid: string, now: Time) returns (outcome: Outcome)
      modifies this
      ensures (Value(), outcome) == Serve(old(Value()), Login(source, key, verified, sid), now)
    {
      if Limited(audit, source, now) {
        AuditFrom("RATE_LIMIT", None, Some(source), now);
        return RateLimited;
      }
      var valid := key.Some? && key.value in keys && KeyActive(keys[key.value], now) && verified;
      if !valid {
        AuditFrom("RATE_LIMIT", None, Some(source), now);
        return Unauthenticated;
      }
      sessions := sessions[sid := Session(key.value, now, now, now + IDLE, now + WEEK, None, epoch)];
      keys := keys[key.value := keys[key.value].(lastUsed := Some(now))];
      Audit("LOGIN_SUCCESS", key, now);
      return Done;
    }

    // Every request of the interface.
    method Handle(r: Request, now: Time) returns (outcome: Outcome)
      modifies this
      ensures (Value(), outcome) == Serve(old(Value()), r, now)
    {
      match r {
        case Issue(caption, expires, id) =>
          if SomeActive(keys) { return InitialKeyExists; }
          keys := keys[id := Fresh(caption, expires)];
          Audit("KEY_CREATED", Some(id), now);
          return Done;
        case Login(source, key, verified, sid) =>
          outcome := LogIn(source, key, verified, sid, now);
        case Visit(sid) =>
          var ok := SessionContext(sid, now);
          return if ok then Done else Unauthenticated;
        case Submit(sid, csrf, action) =>
          var ok := SessionContext(sid, now);
          if !ok { return Unauthenticated; }
          if !csrf { return CsrfRequired; }
          outcome := Act(sid, action, now);
      }
    }

    method Act(sid: string, action: Action, now: Time) returns (outcome: Outcome)
      modifies this
      ensures (Value(), outcome) == Perform(old(Value()), sid, action, now)
    {
      match action {
        case Logout =>
          if sid in sessions {
            var s := sessions[sid];
            sessions := sessions[sid := s.(revokedAt := Some(now))];
            Audit("SESSION_REVOKED", Some(s.key), now);
          }
          return Done;
        case Create(caption, expires, id) =>
          keys := keys[id := Fresh(caption, expires)];
          Audit("KEY_CREATED", Some(id), now);
          return Done;
        case Rename(key, caption, header) =>
          if key !in keys { return NotFound; }
          var mismatch := Precondition(header, keys[key].revision);
          if mismatch.Some? { return Refused(mismatch.value); }
          keys := keys[key := keys[key].(caption := caption, revision := keys[key].revision + 1)];
          Audit("KEY_RENAMED", Some(key), now);
          return Done;
        case Revoke(key, to, header) => outcome := RevokeKey(key, to, header, sid, now);
        case Rotate(key, header, id) => outcome := RotateKey(key, header, id, sid, now);
        case Other(events) =>
          for k := 0 to |events|
            invariant Value() == old(Value()).(audit := AllAppended(old(audit), events[..k], now))
          {
            assert events[..k + 1][..k] == events[..k];
            Audit(events[k], None, now);
          }
          assert events[..|events|] == events;
          return Done;
      }
    }
  }
}
