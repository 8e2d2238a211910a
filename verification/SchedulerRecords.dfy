// What a successful upgrade vouches for, row by row, and which stores without any
// history it accepts.
module SchedulerRecords {
  import opened Wrappers
  import opened Filters
  import opened Durations
  import opened SchedulerStore
  import opened SchedulerInit
  import opened SchedulerProof
  import opened SchedulerTheorems
  import opened SchedulerStatuses

  // ---- deployments ----

  ghost predicate WellKept(deployments: seq<Deployment>) {
    && (forall d :: d in deployments ==>
          Known(d.status) && d.id != "" && d.workspace != "" && d.paper != "" && d.revision > 0)
    && (forall i, j :: 0 <= i < |deployments| && 0 <= j < |deployments| && i != j &&
                       deployments[i].workspace == deployments[j].workspace ==>
          deployments[i].id != deployments[j].id && deployments[i].paper != deployments[j].paper)
  }

  lemma AuthorityIsWellKept(deployments: seq<Deployment>)
    ensures Authority(deployments) <==> WellKept(deployments)
  {
    hide LegacyTarget;
    hide Known;
    forall i | 0 <= i < |deployments|
      ensures LegacyTarget(deployments[i].status).Some? <==> Known(deployments[i].status)
    {
      KnownExactly(deployments[i]);
    }
    if WellKept(deployments) {
      forall i | 0 <= i < |deployments|
        ensures Classifiable(deployments[i])
      {
        var d := deployments[i];
        assert d in deployments;
      }
    }
    if Authority(deployments) {
      forall i, j | 0 <= i < |deployments| && 0 <= j < |deployments| && i != j &&
                    deployments[i].workspace == deployments[j].workspace
        ensures deployments[i].id != deployments[j].id && deployments[i].paper != deployments[j].paper
      {
        assert i < j ==> !SameDeployment(deployments[i], deployments[j]);
        assert j < i ==> !SameDeployment(deployments[j], deployments[i]);
      }
    }
  }

  // ---- one row ----

  lemma {:induction false} FilteredOnce<T>(s: seq<T>, p: T -> bool) returns (i: nat)
    requires |Filter(s, p)| == 1
    ensures i < |s| && Filter(s, p) == [s[i]] && forall j :: 0 <= j < |s| ==> (p(s[j]) <==> j == i)
  {
    var n := |s| - 1;
    if p(s[n]) {
      i := n;
      NoneFiltered(s[..n], p);
    } else {
      i := FilteredOnce(s[..n], p);
    }
  }

  lemma {:induction false} NoneFiltered<T>(s: seq<T>, p: T -> bool)
    requires Filter(s, p) == []
    ensures forall j :: 0 <= j < |s| ==> !p(s[j])
  {
    if s != [] { NoneFiltered(s[..|s| - 1], p); }
  }

  ghost predicate IsBaseline(a: AuditEvent, d: Deployment) {
    && a.content.workspace == d.workspace && a.content.objectType == "paper" && a.content.objectId == d.paper
    && a.content.action == "SCHEDULER_STATE_INITIALIZED_NO_HISTORY" && !a.content.hasDetailArtifact
  }

  ghost predicate IsUpdate(e: DomainEvent, d: Deployment, id: string) {
    && e.workspace == d.workspace && e.eventId == id && e.eventType == "paper.updated"
    && e.objectType == "paper" && e.objectId == d.paper
  }

  // The evidence of a baseline: made without a state before it, suppressed from the same
  // instant unless it is active, and signed by an actor, a system and a build.
  ghost predicate Testifies(e: Evidence, d: Deployment) {
    && e.workspace == d.workspace && e.paper == d.paper && e.fromState.None?
    && e.reason == "SCHEDULER_STATE_INITIALIZED_NO_HISTORY" && e.revision > 0
    && e.toState in ["ACTIVE", "PAUSED", "DISABLED"]
    && e.effective.At? && e.initialization == e.effective && e.resumeWatermark == e.effective
    && (e.toState == "ACTIVE" ==> e.suppressedSince == NoStamp)
    && (e.toState != "ACTIVE" ==> e.suppressedSince == e.effective)
    && Signed(e.actor) && Signed(e.system) && Signed(e.build)
  }

  ghost predicate Signed(pair: Pair) {
    pair.Pair? && pair.first != "" && pair.second != ""
  }

  ghost predicate Announces(event: DomainEvent, e: Evidence) {
    && event.payloadStatus == Some(e.toState) && e.actor.Pair? && event.actor == Some(e.actor.second)
    && event.objectVersion.None? && event.objectRevision.Some? && event.objectRevision.value > 0
    && event.revision == event.objectRevision && event.schemaVersion == 1
    && event.occurredAt == e.effective && e.effective.At?
    && event.expiresAt == At(e.effective.instant + 7 * 24 * HOUR)
  }

  // Row i of the audit log is the deployment's only baseline, and its event is the only
  // update under its id, unless that has expired.
  ghost predicate Documented(s: Store, d: Deployment, i: nat) {
    && i < |s.audits|
    && (forall j :: 0 <= j < |s.audits| ==> (IsBaseline(s.audits[j], d) <==> j == i))
    && s.audits[i].content.summary.BaselineSummary?
    && var e := s.audits[i].content.summary.evidence;
       && Testifies(e, d)
       && (ExpiredBefore(s, d.workspace, s.audits[i].content.sequence, e.transitionId, d) ||
           exists k: nat :: AnnouncedBy(s, d, e, k))
  }

  ghost predicate ExpiredBefore(s: Store, workspace: string, sequence: int, id: string, d: Deployment) {
    && workspace in s.watermarks && sequence <= s.watermarks[workspace].expiredThrough
    && forall k :: 0 <= k < |s.events| ==> !IsUpdate(s.events[k], d, id)
  }

  ghost predicate AnnouncedBy(s: Store, d: Deployment, e: Evidence, k: nat) {
    && k < |s.events| && Announces(s.events[k], e)
    && forall j :: 0 <= j < |s.events| ==> (IsUpdate(s.events[j], d, e.transitionId) <==> j == k)
  }

  lemma ProvenIsDocumented(s: Store, d: Deployment) returns (i: nat)
    requires EvidenceProven(s, d)
    ensures Documented(s, d, i)
  {
    hide Filter;
    hide EvidenceValid;
    hide EventMatches;
    i := FilteredOnce(s.audits, BaselineAuditOf(d.workspace, d.paper));
    var e := s.audits[i].content.summary.evidence;
    ValidTestifies(e, d);
    var update := UpdateEventOf(d.workspace, d.paper, e.transitionId);
    if |Filter(s.events, update)| == 0 {
      NoneFiltered(s.events, update);
      assert ExpiredBefore(s, d.workspace, s.audits[i].content.sequence, e.transitionId, d);
    } else {
      var k := FilteredOnce(s.events, update);
      MatchAnnounces(s.events[k], e);
      assert AnnouncedBy(s, d, e, k);
    }
  }

  lemma ValidTestifies(e: Evidence, d: Deployment)
    requires EvidenceValid(e, d)
    ensures Testifies(e, d) && e.actor.Pair? && e.initialization.At? && e.effective == e.initialization
  {
    hide EventId;
  }

  lemma MatchAnnounces(event: DomainEvent, e: Evidence)
    requires e.actor.Pair? && e.initialization.At? && e.effective == e.initialization && EventMatches(event, e)
    ensures Announces(event, e)
  {
  }

  // ---- heads and watermarks ----

  ghost predicate Newest(audits: seq<AuditEvent>, workspace: string, i: nat) {
    && i < |audits| && audits[i].content.workspace == workspace
    && forall j :: 0 <= j < |audits| && audits[j].content.workspace == workspace ==>
         audits[j].content.sequence <= audits[i].content.sequence
  }

  ghost predicate NewestEvent(events: seq<DomainEvent>, workspace: string, i: nat) {
    && i < |events| && events[i].workspace == workspace
    && forall j :: 0 <= j < |events| && events[j].workspace == workspace ==> events[j].sequence <= events[i].sequence
  }

  // The head of the chain is the hash of the newest audit row, and the watermark stands at
  // the newest event; without rows there is no head, and nothing retained.
  ghost predicate Supported(s: Store, w: string) {
    && ((exists i: nat ::
           Newest(s.audits, w, i) && w in s.heads && s.heads[w].hash == Some(s.audits[i].hash) &&
           s.heads[w].revision > 0) ||
        (w !in s.heads && forall j :: 0 <= j < |s.audits| ==> s.audits[j].content.workspace != w))
    && ((exists i: nat ::
           NewestEvent(s.events, w, i) && w in s.watermarks && s.watermarks[w].last == s.events[i].sequence &&
           s.watermarks[w].expiredThrough <= s.events[i].sequence) ||
        ((w in s.watermarks ==> s.watermarks[w].last == s.watermarks[w].expiredThrough) &&
         forall j :: 0 <= j < |s.events| ==> s.events[j].workspace != w))
  }

  lemma {:induction false} TopIsNewest(audits: seq<AuditEvent>, w: string) returns (i: nat)
    ensures TopAudit(audits, w).Some? ==> Newest(audits, w, i) && audits[i] == TopAudit(audits, w).value
    ensures TopAudit(audits, w).None? ==> forall j :: 0 <= j < |audits| ==> audits[j].content.workspace != w
  {
    i := 0;
    if audits != [] {
      var n := |audits| - 1;
      i := TopIsNewest(audits[..n], w);
      if TopAudit(audits, w) == Some(audits[n]) { i := n; }
    }
  }

  lemma {:induction false} TopEventIsNewest(events: seq<DomainEvent>, w: string) returns (i: nat)
    ensures TopEvent(events, w).Some? ==> NewestEvent(events, w, i) && events[i] == TopEvent(events, w).value
    ensures TopEvent(events, w).None? ==> forall j :: 0 <= j < |events| ==> events[j].workspace != w
  {
    i := 0;
    if events != [] {
      var n := |events| - 1;
      i := TopEventIsNewest(events[..n], w);
      if TopEvent(events, w) == Some(events[n]) { i := n; }
    }
  }

  lemma ValidIsSupported(s: Store, w: string)
    requires SupportValid(s, w)
    ensures Supported(s, w)
  {
    hide TopAudit;
    hide TopEvent;
    var i := TopIsNewest(s.audits, w);
    var k := TopEventIsNewest(s.events, w);
  }

  // ---- numbering ----

  // The row's number is one more than that of the newest row before it in its workspace, or
  // one where there is none.
  ghost predicate Numbers(audits: seq<AuditEvent>, i: nat)
    requires i < |audits|
  {
    var row := audits[i].content;
    || (exists j: nat :: Newest(audits[..i], row.workspace, j) && row.sequence == audits[j].content.sequence + 1)
    || (row.sequence == 1 && forall j :: 0 <= j < i ==> audits[j].content.workspace != row.workspace)
  }

  ghost predicate NumbersEvent(events: seq<DomainEvent>, i: nat)
    requires i < |events|
  {
    || (exists j: nat ::
          NewestEvent(events[..i], events[i].workspace, j) && events[i].sequence == events[j].sequence + 1)
    || (events[i].sequence == 1 && forall j :: 0 <= j < i ==> events[j].workspace != events[i].workspace)
  }

  // The rows from n on are numbered.
  ghost predicate NumberedFrom(s: Store, audits: nat, events: nat) {
    && (forall i :: audits <= i < |s.audits| ==> Numbers(s.audits, i))
    && (forall i :: events <= i < |s.events| ==> NumbersEvent(s.events, i))
  }

  lemma NumbersNext(audits: seq<AuditEvent>, a: AuditEvent)
    requires a.content.sequence ==
             match TopAudit(audits, a.content.workspace)
             case None => 1
             case Some(top) => top.content.sequence + 1
    ensures Numbers(audits + [a], |audits|)
    ensures forall i :: 0 <= i < |audits| ==> (Numbers(audits + [a], i) <==> Numbers(audits, i))
  {
    hide Newest;
    hide TopAudit;
    var after := audits + [a];
    var j := TopIsNewest(audits, a.content.workspace);
    assert after[..|audits|] == audits;
    if TopAudit(audits, a.content.workspace).Some? {
      WithinRows(audits, a.content.workspace, j);
      assert after[j] == audits[j];
    }
    forall i | 0 <= i < |audits|
      ensures Numbers(after, i) <==> Numbers(audits, i)
    {
      assert after[..i] == audits[..i];
      forall j: nat | Newest(audits[..i], after[i].content.workspace, j)
        ensures j < i && after[j] == audits[j]
      {
        WithinRows(audits[..i], after[i].content.workspace, j);
      }
    }
  }

  lemma WithinRows(audits: seq<AuditEvent>, w: string, j: nat)
    requires Newest(audits, w, j)
    ensures j < |audits|
  {
  }

  lemma NumbersNextEvent(events: seq<DomainEvent>, e: DomainEvent)
    requires e.sequence ==
             match TopEvent(events, e.workspace)
             case None => 1
             case Some(top) => top.sequence + 1
    ensures NumbersEvent(events + [e], |events|)
    ensures forall i :: 0 <= i < |events| ==> (NumbersEvent(events + [e], i) <==> NumbersEvent(events, i))
  {
    hide NewestEvent;
    hide TopEvent;
    var after := events + [e];
    var j := TopEventIsNewest(events, e.workspace);
    assert after[..|events|] == events;
    if TopEvent(events, e.workspace).Some? {
      WithinEvents(events, e.workspace, j);
      assert after[j] == events[j];
    }
    forall i | 0 <= i < |events|
      ensures NumbersEvent(after, i) <==> NumbersEvent(events, i)
    {
      assert after[..i] == events[..i];
      forall j: nat | NewestEvent(events[..i], after[i].workspace, j)
        ensures j < i && after[j] == events[j]
      {
        WithinEvents(events[..i], after[i].workspace, j);
      }
    }
  }

  lemma WithinEvents(events: seq<DomainEvent>, w: string, j: nat)
    requires NewestEvent(events, w, j)
    ensures j < |events|
  {
  }

  lemma NumbersStep(s: Store, d: Deployment, uuid: string, instant: Instant, audits: nat, events: nat)
    requires NumberedFrom(s, audits, events) && InitializeOne(s, d, uuid, instant).Ok?
    ensures NumberedFrom(InitializeOne(s, d, uuid, instant).value, audits, events)
  {
    hide SupportValid;
    hide Filter;
    hide LegacyTarget;
    hide Numbers;
    hide NumbersEvent;
    hide TopAudit;
    hide TopEvent;
    var target := LegacyTarget(d.status).value;
    InsertedAudit(s, d, uuid, instant, "", "");
    InsertedEvent(s, d, uuid, instant, "", "", "");
    NumbersNext(s.audits, NewAudit(s, Disabled(d), target, uuid, instant));
    NumbersNextEvent(s.events, NewEvent(s, Disabled(d), target, uuid, instant));
    hide InitializeOne;
  }

  lemma {:induction false} NumberedAll(store: Store, targets: seq<Deployment>, uuids: seq<string>, instant: Instant)
    requires |uuids| >= |targets| && InitializeAll(store, targets, uuids, instant).Ok?
    ensures NumberedFrom(InitializeAll(store, targets, uuids, instant).value, |store.audits|, |store.events|)
  {
    hide InitializeOne;
    hide NumberedFrom;
    if targets == [] {
      NothingNumbered(store);
    } else {
      var n := |targets| - 1;
      NumberedAll(store, targets[..n], uuids, instant);
      NumbersStep(InitializeAll(store, targets[..n], uuids, instant).value, targets[n], uuids[n], instant,
                  |store.audits|, |store.events|);
    }
  }

  lemma NothingNumbered(store: Store)
    ensures NumberedFrom(store, |store.audits|, |store.events|)
  {
  }

  // ---- what success means ----

  // A successful upgrade vouches for every row it looks at: the deployments are well kept,
  // each has exactly one state of its own, that state carries what the deployment's status
  // calls for, its baseline is documented, and its workspace's head and watermark stand at
  // the newest rows. The rows it adds are numbered without a gap.
  lemma UpgradeVouches(store: Store, uuids: seq<string>, instant: Instant)
    requires |uuids| >= |store.deployments| && Upgrade(store, uuids, instant).Ok?
    ensures var s := Upgrade(store, uuids, instant).value;
            && WellKept(store.deployments) && WellKept(s.deployments)
            && (forall k :: 0 <= k < |s.states| ==> Belongs(s.states[k], s.deployments))
            && (forall i :: 0 <= i < |s.deployments| ==> Vouched(s, s.deployments[i]))
            && NumberedFrom(s, |store.audits|, |store.events|)
  {
    hide InitializeAll;
    hide Missing;
    hide DeploymentProven;
    hide SupportValid;
    hide StatesUnambiguous;
    hide Classifiable;
    hide SameDeployment;
    hide NumberedFrom;
    var s := Upgrade(store, uuids, instant).value;
    MissingFewer(store, store.deployments);
    NumberedAll(store, Missing(store, store.deployments), uuids, instant);
    AuthorityIsWellKept(store.deployments);
    AuthorityIsWellKept(s.deployments);
    hide WellKept;
    hide Authority;
    hide Vouched;
    forall i | 0 <= i < |s.deployments|
      ensures Vouched(s, s.deployments[i])
    {
      assert DeploymentProven(s, s.deployments[i]);
      ProvenIsVouched(s, s.deployments[i]);
    }
  }

  ghost predicate Vouched(s: Store, d: Deployment) {
    && Agrees(s, d) && StatesOf(s, d)[0].revision > 0 && StatesOf(s, d)[0].resumeWatermark.Some?
    && (exists i: nat :: Documented(s, d, i))
    && Supported(s, d.workspace)
  }

  lemma ProvenIsVouched(s: Store, d: Deployment)
    requires DeploymentProven(s, d) && SupportValid(s, d.workspace)
    ensures Vouched(s, d)
  {
    ProvenAgrees(s, d);
    hide EvidenceProven;
    hide Agrees;
    hide StatesOf;
    hide SupportValid;
    ValidIsSupported(s, d.workspace);
    var i := ProvenIsDocumented(s, d);
  }

  // ---- stores without history ----

  // Deployments and nothing else.
  function Unused(deployments: seq<Deployment>): Store {
    Store(deployments, [], [], [], map[], map[])
  }

  lemma UnusedReady(deployments: seq<Deployment>)
    ensures Ready(Unused(deployments)) <==> Authority(deployments)
  {
    hide Authority;
    var store := Unused(deployments);
    forall d: Deployment
      ensures StatesOf(store, d) == [] && Filter(store.audits, BaselineAuditOf(d.workspace, d.paper)) == []
      ensures SupportValid(store, d.workspace) && RetentionReady(store, d.workspace)
    {
    }
  }

  // Any number of deployments in any number of workspaces is upgraded from scratch, if
  // and only if they are well kept.
  lemma UnusedUpgradesExactly(deployments: seq<Deployment>, uuids: seq<string>, instant: Instant)
    requires |uuids| >= |deployments| && forall k :: 0 <= k < |uuids| ==> Uuid4(uuids[k])
    ensures Upgrade(Unused(deployments), uuids, instant).Ok? <==> WellKept(deployments)
  {
    UnusedReady(deployments);
    AuthorityIsWellKept(deployments);
    hide Ready;
    hide Upgrade;
    hide Uuid4;
    hide WellKept;
    hide Authority;
    UpgradeExactly(Unused(deployments), uuids, instant);
  }
}
