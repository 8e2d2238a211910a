// The statuses the migration stores, status by status, and what it does to the
// statuses of the deployments themselves.
module SchedulerStatuses {
  import opened Wrappers
  import opened Filters
  import opened SchedulerStore
  import opened SchedulerInit
  import opened SchedulerProof
  import opened SchedulerTheorems

  predicate Known(status: string) {
    || status == "ACTIVE" || status == "PAUSED"
    || status == "STOPPED" || status == "PENDING" || status == "FAILED" || status == "DISABLED"
  }

  // The one state of the deployment: its status, and since when it is suppressed.
  predicate Starts(s: Store, d: Deployment, status: string, suppressed: Option<Instant>, instant: Instant) {
    StatesOf(s, d) == [SchedulerState(d.workspace, d.id, status, suppressed, Some(instant), d.revision)]
  }

  // The one baseline row of the deployment, and the one event it points to, tell
  // the same story.
  predicate Tells(s: Store, d: Deployment, status: string, suppressed: Stamp, instant: Instant) {
    var audits := Filter(s.audits, BaselineAuditOf(d.workspace, d.paper));
    && |audits| == 1 && audits[0].content.summary.BaselineSummary?
    && var e := audits[0].content.summary.evidence;
       var events := Filter(s.events, UpdateEventOf(d.workspace, d.paper, e.transitionId));
       && e.fromState.None? && e.toState == status && e.revision == d.revision
       && audits[0].content.objectRevision == d.revision && audits[0].content.occurredAt == instant
       && e.suppressedSince == suppressed && e.effective == At(instant)
       && |events| == 1 && events[0].payloadStatus == Some(status) && events[0].objectRevision == Some(d.revision)
  }

  // An active deployment starts active; a paused one paused; every other one disabled.
  predicate Initialized(s: Store, d: Deployment, instant: Instant) {
    && Known(d.status)
    && (d.status == "ACTIVE" ==> Starts(s, d, "ACTIVE", None, instant) && Tells(s, d, "ACTIVE", NoStamp, instant))
    && (d.status == "PAUSED" ==>
          Starts(s, d, "PAUSED", Some(instant), instant) && Tells(s, d, "PAUSED", At(instant), instant))
    && (d.status != "ACTIVE" && d.status != "PAUSED" ==>
          Starts(s, d, "DISABLED", Some(instant), instant) && Tells(s, d, "DISABLED", At(instant), instant))
  }

  // The state a deployment already has carries the status it must have.
  predicate Agrees(s: Store, d: Deployment) {
    && Known(d.status) && |StatesOf(s, d)| == 1
    && var state := StatesOf(s, d)[0];
       && state.status ==
            (if d.status == "ACTIVE" then "ACTIVE" else if d.status == "PAUSED" then "PAUSED" else "DISABLED")
       && (state.suppressedSince.None? <==> d.status == "ACTIVE")
  }

  lemma KnownExactly(d: Deployment)
    ensures LegacyTarget(d.status).Some? <==> Known(d.status)
  {
  }

  lemma StartsOf(s: Store, d: Deployment, instant: Instant)
    requires LegacyTarget(d.status).Some?
    requires StatesOf(s, d) == [NewState(Disabled(d), LegacyTarget(d.status).value, instant)]
    ensures Known(d.status)
    ensures d.status == "ACTIVE" ==> Starts(s, d, "ACTIVE", None, instant)
    ensures d.status == "PAUSED" ==> Starts(s, d, "PAUSED", Some(instant), instant)
    ensures d.status != "ACTIVE" && d.status != "PAUSED" ==> Starts(s, d, "DISABLED", Some(instant), instant)
  {
    hide StatesOf;
  }

  lemma TellsOf(s: Store, d: Deployment, uuid: string, instant: Instant, a: AuditEvent, e: DomainEvent)
    requires Classifiable(d)
    requires a.content.summary == BaselineSummary(Proof(d, uuid, instant)) && EventMatches(e, Proof(d, uuid, instant))
    requires WrittenFor(d, instant, a, e)
    requires Filter(s.audits, BaselineAuditOf(d.workspace, d.paper)) == [a]
    requires Filter(s.events, UpdateEventOf(d.workspace, d.paper, "EVT-" + uuid)) == [e]
    ensures d.status == "ACTIVE" ==> Tells(s, d, "ACTIVE", NoStamp, instant)
    ensures d.status == "PAUSED" ==> Tells(s, d, "PAUSED", At(instant), instant)
    ensures d.status != "ACTIVE" && d.status != "PAUSED" ==> Tells(s, d, "DISABLED", At(instant), instant)
  {
    hide Filter;
    assert Proof(d, uuid, instant).transitionId == "EVT-" + uuid;
  }

  lemma TargetInitialized(store: Store, targets: seq<Deployment>, uuids: seq<string>, instant: Instant, k: nat)
    requires |uuids| >= |targets| && InitializeAll(store, targets, uuids, instant).Ok?
    requires Separate(targets) && k < |targets| && Classifiable(targets[k]) && StatesOf(store, targets[k]) == []
    requires DeploymentProven(InitializeAll(store, targets, uuids, instant).value, targets[k])
    ensures Initialized(InitializeAll(store, targets, uuids, instant).value, targets[k], instant)
  {
    hide InitializeAll;
    hide Filter;
    hide LegacyTarget;
    hide StatesOf;
    hide NewState;
    hide NewEvidence;
    hide EvidenceValid;
    hide EventMatches;
    hide Starts;
    hide Tells;
    var t, s := targets[k], InitializeAll(store, targets, uuids, instant).value;
    var a, e := TargetRows(store, targets, uuids, instant, k);
    TargetStates(store, targets, uuids, instant, k);
    ProofId(t, uuids[k], instant);
    StartsOf(s, t, instant);
    var audits := Filter(s.audits, BaselineAuditOf(t.workspace, t.paper));
    assert audits[|audits| - 1] == a && |audits| == 1;
    assert audits == [a];
    var events := Filter(s.events, UpdateEventOf(t.workspace, t.paper, "EVT-" + uuids[k]));
    assert events[|events| - 1] == e && |events| == 1;
    assert events == [e];
    TellsOf(s, t, uuids[k], instant, a, e);
  }

  lemma AlikeProven(s: Store, d: Deployment, e: Deployment)
    requires Alike(d, e) && DeploymentProven(s, e)
    ensures DeploymentProven(s, d)
  {
  }

  lemma ProvenAgrees(s: Store, d: Deployment)
    requires DeploymentProven(s, d)
    ensures Agrees(s, d)
  {
    hide Filter;
    hide EvidenceProven;
  }

  // After a successful upgrade every deployment has the one state its status calls
  // for. Those that lacked one start now, with evidence and event to match; those
  // that had one keep it.
  lemma StatusesStored(store: Store, uuids: seq<string>, instant: Instant, i: nat)
    requires |uuids| >= |store.deployments| && Upgrade(store, uuids, instant).Ok? && i < |store.deployments|
    ensures var s, d := Upgrade(store, uuids, instant).value, store.deployments[i];
            && Agrees(s, d)
            && (if StatesOf(store, d) == [] then Initialized(s, d, instant)
                else StatesOf(s, d) == StatesOf(store, d))
  {
    hide InitializeAll;
    hide Filter;
    hide Missing;
    hide SupportValid;
    hide DeploymentProven;
    hide StatesOf;
    hide Linked;
    hide NoOrphans;
    hide Agrees;
    hide Alike;
    hide Classifiable;
    hide SameDeployment;
    hide Initialized;
    var s, d := Upgrade(store, uuids, instant).value, store.deployments[i];
    UpgradeOutcome(store, uuids, instant);
    var at := TargetsSeparate(store);
    assert Alike(d, s.deployments[i]);
    AlikeProven(s, d, s.deployments[i]);
    ProvenAgrees(s, d);
    if StatesOf(store, d) == [] {
      var k :| 0 <= k < |at| && at[k] == i;
      TargetInitialized(store, Targets(store), uuids, instant, k);
    } else {
      forall k | 0 <= k < |at|
        ensures !SameDeployment(Targets(store)[k], d)
      {
        assert at[k] < i ==> !SameDeployment(store.deployments[at[k]], store.deployments[i]);
        assert i < at[k] ==> !SameDeployment(store.deployments[i], store.deployments[at[k]]);
        SymmetricDeployment(store.deployments[i], store.deployments[at[k]]);
      }
      OtherStates(store, Targets(store), uuids, instant, d);
    }
  }

  lemma SymmetricDeployment(d: Deployment, e: Deployment)
    ensures SameDeployment(d, e) <==> SameDeployment(e, d)
  {
  }

  // A deployment of any other status blocks the upgrade.
  lemma UnknownStatusBlocks(store: Store, uuids: seq<string>, instant: Instant, i: nat)
    requires |uuids| >= |store.deployments| && i < |store.deployments| && !Known(store.deployments[i].status)
    ensures Upgrade(store, uuids, instant) == Err(Blocked)
  {
    hide InitializeAll;
    hide Missing;
    hide Validated;
    hide StatesUnambiguous;
    hide SameDeployment;
    KnownExactly(store.deployments[i]);
    hide LegacyTarget;
    assert !Classifiable(store.deployments[i]);
  }

  // ---- the deployments' own statuses ----

  ghost predicate Names(targets: seq<Deployment>, deployments: seq<Deployment>) {
    forall k, i :: 0 <= k < |targets| && 0 <= i < |deployments| ==>
      (targets[k].id == deployments[i].id && targets[k].workspace == deployments[i].workspace ==>
         targets[k] == deployments[i])
  }

  ghost predicate Relabels(before: seq<Deployment>, after: seq<Deployment>, targets: seq<Deployment>) {
    && |before| == |after|
    && forall i :: 0 <= i < |before| ==>
         after[i] == if before[i] in targets && before[i].status == "STOPPED" then before[i].(status := "DISABLED")
                     else before[i]
  }

  lemma {:induction false} OnlyStoppedRelabelled(store: Store, targets: seq<Deployment>, uuids: seq<string>,
                                                 instant: Instant)
    requires |uuids| >= |targets| && InitializeAll(store, targets, uuids, instant).Ok?
    requires Names(targets, store.deployments)
    ensures Relabels(store.deployments, InitializeAll(store, targets, uuids, instant).value.deployments, targets)
  {
    hide InitializeOne;
    if targets != [] {
      var n := |targets| - 1;
      OnlyStoppedRelabelled(store, targets[..n], uuids, instant);
      var s := InitializeAll(store, targets[..n], uuids, instant).value;
      RelabelledStep(store.deployments, s, targets, uuids[n], instant);
    }
  }

  lemma RelabelledStep(before: seq<Deployment>, s: Store, targets: seq<Deployment>, uuid: string, instant: Instant)
    requires targets != [] && Names(targets, before)
    requires Relabels(before, s.deployments, targets[..|targets| - 1])
    requires InitializeOne(s, targets[|targets| - 1], uuid, instant).Ok?
    ensures Relabels(before, InitializeOne(s, targets[|targets| - 1], uuid, instant).value.deployments, targets)
  {
    hide SupportValid;
    hide LegacyTarget;
    var n := |targets| - 1;
    assert targets == targets[..n] + [targets[n]];
    var after := InitializeOne(s, targets[n], uuid, instant).value.deployments;
    assert after == DisableIn(s.deployments, targets[n]);
  }

  // A deployment changes in one way only: stopped and without a state, it is
  // disabled. Its other columns, and every other deployment, stay as they are.
  lemma DeploymentsAfter(store: Store, uuids: seq<string>, instant: Instant, i: nat)
    requires |uuids| >= |store.deployments| && Upgrade(store, uuids, instant).Ok? && i < |store.deployments|
    ensures var s, d := Upgrade(store, uuids, instant).value, store.deployments[i];
            && |s.deployments| == |store.deployments|
            && s.deployments[i] ==
                 if d.status == "STOPPED" && StatesOf(store, d) == [] then d.(status := "DISABLED") else d
  {
    hide InitializeAll;
    hide Filter;
    hide Missing;
    hide Validated;
    hide StatesOf;
    hide NoOrphans;
    hide Classifiable;
    var at := TargetsSeparate(store);
    forall k, j | 0 <= k < |at| && 0 <= j < |store.deployments| &&
      Targets(store)[k].id == store.deployments[j].id && Targets(store)[k].workspace == store.deployments[j].workspace
      ensures Targets(store)[k] == store.deployments[j]
    {
      assert at[k] < j ==> !SameDeployment(store.deployments[at[k]], store.deployments[j]);
      assert j < at[k] ==> !SameDeployment(store.deployments[j], store.deployments[at[k]]);
    }
    OnlyStoppedRelabelled(store, Targets(store), uuids, instant);
    var d := store.deployments[i];
    if StatesOf(store, d) == [] {
      var k :| 0 <= k < |at| && at[k] == i;
      assert Targets(store)[k] == d;
    }
  }
}
