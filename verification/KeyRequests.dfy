// What an owner's request does to the access keys: when it is granted, what it changes,
// and that nothing changes without an entry in the audit log.
module KeyRequests {
  import opened Wrappers
  import opened Durations
  import opened Preconditions
  import opened AccessKeys

  // The key is stored and the header names its revision.
  predicate NamesKey(c: Control, key: string, header: IfMatch) {
    key in c.keys && header == Names(c.keys[key].revision)
  }

  // Some other key is ACTIVE, whether or not it has expired.
  predicate OtherIsActive(c: Control, key: string) {
    exists k :: k in c.keys && k != key && c.keys[k].status == ACTIVE
  }

  // One entry more, written now.
  predicate Logs(before: Control, after: Control, event: string, key: Option<string>, now: Time) {
    && |after.audit| == |before.audit| + 1 && before.audit <= after.audit
    && var row := after.audit[|before.audit|].content; row.event == event && row.key == key && row.createdAt == now
  }

  // Every session of the key is revoked, those that were revoked before stay as they
  // were, and so do the sessions of other keys.
  predicate SessionsEnd(before: Control, after: Control, key: string, now: Time) {
    && after.sessions.Keys == before.sessions.Keys
    && forall sid :: sid in before.sessions ==>
         var was, s := before.sessions[sid], after.sessions[sid];
         if was.key != key || was.revokedAt.Some? then s == was else s == was.(revokedAt := Some(now))
  }

  predicate OthersStay(before: Control, after: Control, sid: string) {
    && after.sessions.Keys == before.sessions.Keys
    && forall s :: s in before.sessions && s != sid ==> after.sessions[s] == before.sessions[s]
  }

  ghost predicate OtherKeysStay(before: Control, after: Control, keys: set<string>) {
    forall k :: k !in keys ==>
      (k in after.keys <==> k in before.keys) && (k in before.keys ==> after.keys[k] == before.keys[k])
  }

  lemma LastActive(c: Control, key: string)
    requires key in c.keys && c.keys[key].status == ACTIVE
    ensures |ActiveKeys(c.keys)| <= 1 <==> !OtherIsActive(c, key)
  {
    var active := ActiveKeys(c.keys);
    if OtherIsActive(c, key) {
      var k :| k in c.keys && k != key && c.keys[k].status == ACTIVE;
      assert {key, k} <= active;
      assert active == {key, k} + (active - {key, k});
      assert |{key, k}| == 2;
    } else {
      assert active == {key};
    }
  }

  // A key is revoked or expired exactly when the request names its revision and it is not
  // the last ACTIVE one. It takes the state asked for, its sessions end, nothing else
  // changes, and the log says so.
  lemma RevocationExactly(c: Control, sid: string, key: string, to: Ended, header: IfMatch, now: Time)
    ensures var (after, answer) := Perform(c, sid, Revoke(key, to, header), now);
            && (answer == Done <==>
                  NamesKey(c, key, header) && (c.keys[key].status == ACTIVE ==> OtherIsActive(c, key)))
            && (answer != Done ==> after == c)
            && (answer == Done ==>
                  && key in after.keys
                  && after.keys[key] ==
                       c.keys[key].(status := to, revokedAt := Some(now), revision := c.keys[key].revision + 1)
                  && OtherKeysStay(c, after, {key}) && SessionsEnd(c, after, key, now)
                  && Logs(c, after, if to == REVOKED then "KEY_REVOKED" else "KEY_EXPIRED", Some(key), now))
  {
    if key in c.keys && c.keys[key].status == ACTIVE { LastActive(c, key); }
    hide ActiveKeys;
    hide OtherIsActive;
  }

  // A key is replaced exactly when the request names its revision. The new key is ACTIVE
  // with the label and the expiry of the old one, which is revoked with its sessions.
  lemma RotationExactly(c: Control, sid: string, key: string, header: IfMatch, id: string, now: Time)
    requires id !in c.keys
    ensures var (after, answer) := Perform(c, sid, Rotate(key, header, id), now);
            && (answer == Done <==> NamesKey(c, key, header))
            && (answer != Done ==> after == c)
            && (answer == Done ==>
                  && key in after.keys && id in after.keys
                  && after.keys[id] == AccessKey(c.keys[key].caption, ACTIVE, c.keys[key].expires, None, None, 1)
                  && after.keys[key].status == REVOKED && after.keys[key].revokedAt == Some(now)
                  && after.keys[key].revision == c.keys[key].revision + 1
                  && OtherKeysStay(c, after, {key, id}) && SessionsEnd(c, after, key, now)
                  && Logs(c, after, "KEY_ROTATED", Some(id), now))
  {
  }

  // Keys are created for whoever is let in, and renamed when the request names their
  // revision; the first key of all is issued only while none is ACTIVE.
  lemma CreationExactly(c: Control, sid: string, caption: string, expires: Option<Time>, id: string, header: IfMatch,
                        now: Time)
    ensures var (after, answer) := Perform(c, sid, Create(caption, expires, id), now);
            && answer == Done && after.keys == c.keys[id := AccessKey(caption, ACTIVE, expires, None, None, 1)]
            && after.sessions == c.sessions && Logs(c, after, "KEY_CREATED", Some(id), now)
    ensures var (after, answer) := Perform(c, sid, Rename(id, caption, header), now);
            && (answer == Done <==> NamesKey(c, id, header))
            && (answer != Done ==> after == c)
            && (answer == Done ==>
                  && after.keys ==
                       c.keys[id := c.keys[id].(caption := caption, revision := c.keys[id].revision + 1)]
                  && after.sessions == c.sessions && Logs(c, after, "KEY_RENAMED", Some(id), now))
    ensures var (after, answer) := Serve(c, Issue(caption, expires, id), now);
            && (answer == Done <==> forall k :: k in c.keys ==> c.keys[k].status != ACTIVE)
            && (answer != Done ==> after == c)
            && (answer == Done ==>
                  && after.keys == c.keys[id := AccessKey(caption, ACTIVE, expires, None, None, 1)]
                  && after.sessions == c.sessions && Logs(c, after, "KEY_CREATED", Some(id), now))
  {
  }

  // A request of a session that is not accepted changes nothing at all, and one without
  // its token only moves the session's idle window. Anything else is performed.
  lemma OnlyAcceptedPerform(c: Control, sid: string, csrf: bool, action: Action, now: Time)
    ensures var (after, answer) := Serve(c, Submit(sid, csrf, action), now);
            && (!Accepts(c, sid, now) ==> after == c && answer == Unauthenticated)
            && (Accepts(c, sid, now) && !csrf ==>
                  && answer == CsrfRequired && after.keys == c.keys && after.audit == c.audit
                  && OnlyTouched(c, after)
                  && OthersStay(c, after, sid))
            && (Accepts(c, sid, now) && csrf && action == Logout ==>
                  && answer == Done && sid in after.sessions && after.sessions[sid].revokedAt == Some(now)
                  && after.keys == c.keys && Logs(c, after, "SESSION_REVOKED", Some(c.sessions[sid].key), now)
                  && OthersStay(c, after, sid))
  {
    hide ActiveKeys;
    hide Closed;
    hide AllAppended;
  }

  // ---- nothing unlogged ----

  // The log only ever grows.
  lemma {:induction false} AppendsAll(audit: seq<AuditRow>, events: seq<string>, now: Time)
    ensures audit <= AllAppended(audit, events, now)
    ensures |AllAppended(audit, events, now)| == |audit| + |events|
  {
    if events != [] { AppendsAll(audit, events[..|events| - 1], now); }
  }

  // Sessions have moved at most their idle windows.
  predicate OnlyTouched(before: Control, after: Control) {
    && after.sessions.Keys == before.sessions.Keys
    && forall sid :: sid in before.sessions ==>
         after.sessions[sid] == before.sessions[sid].(lastSeen := after.sessions[sid].lastSeen,
                                                      idleExpires := after.sessions[sid].idleExpires)
  }

  lemma StepLogged(c: Control, r: Request, now: Time)
    ensures var after := Serve(c, r, now).0;
            && c.audit <= after.audit
            && (after.audit == c.audit ==> after.keys == c.keys && OnlyTouched(c, after))
  {
    hide ActiveKeys;
    hide SomeActive;
    hide Limited;
    hide KeyActive;
    hide Perform;
    if r.Submit? && Accepts(c, r.sid, now) { PerformLogged(Touched(c, r.sid, now), r.sid, r.action, now); }
  }

  lemma PerformLogged(c: Control, sid: string, action: Action, now: Time)
    ensures var after := Perform(c, sid, action, now).0;
            && c.audit <= after.audit
            && (after.audit == c.audit ==> after.keys == c.keys && after.sessions == c.sessions)
  {
    hide ActiveKeys;
    hide Closed;
    if action.Other? { AppendsAll(c.audit, action.events, now); }
    hide AllAppended;
  }

  // Over every run: the log keeps every entry, and a run that adds none has changed no
  // key and moved nothing of any session but its idle window.
  lemma {:induction false} NothingUnlogged(c: Control, calls: seq<Call>)
    ensures c.audit <= RunOf(c, calls).audit
    ensures RunOf(c, calls).audit == c.audit ==> RunOf(c, calls).keys == c.keys && OnlyTouched(c, RunOf(c, calls))
  {
    hide Serve;
    if calls != [] {
      var n := |calls| - 1;
      NothingUnlogged(c, calls[..n]);
      StepLogged(RunOf(c, calls[..n]), calls[n].request, calls[n].now);
    }
  }
}
