// The upgrade succeeds exactly on the stores that are ready for it, and what it
// writes is what the validator, which shares no code with it, asks for.
module SchedulerProof {
  import opened Wrappers
  import opened Filters
  import opened SchedulerStore
  import opened SchedulerInit

  // Audit sequences start at one.
  ghost predicate Numbered(store: Store) {
    forall i :: 0 <= i < |store.audits| ==> store.audits[i].content.sequence >= 1
  }

  // The generator yields version-4 UUIDs that no stored event carries.
  ghost predicate Fresh(store: Store, uuids: seq<string>) {
    && (forall k :: 0 <= k < |uuids| ==> Uuid4(uuids[k]))
    && (forall k, i :: 0 <= k < |uuids| && 0 <= i < |store.events| ==> store.events[i].eventId != "EVT-" + uuids[k])
  }

  // Without retained events numbering restarts at one, below an older expiry mark.
  ghost predicate RetentionReady(store: Store, workspace: string) {
    TopEvent(store.events, workspace).None? && workspace in store.watermarks ==>
      store.watermarks[workspace].expiredThrough <= 1
  }

  ghost predicate Uninitialized(store: Store, d: Deployment) {
    Filter(store.audits, BaselineAuditOf(d.workspace, d.paper)) == [] && RetentionReady(store, d.workspace)
  }

  ghost predicate DeploymentReady(store: Store, d: Deployment) {
    && SupportValid(store, d.workspace)
    && if StatesOf(store, d) == [] then Uninitialized(store, d) else DeploymentProven(store, d)
  }

  ghost predicate Ready(store: Store) {
    && Authority(store.deployments)
    && StatesUnambiguous(store)
    && forall i :: 0 <= i < |store.deployments| ==> DeploymentReady(store, store.deployments[i])
  }

  // ---- top rows ----

  lemma {:induction false} TopAuditAppend(audits: seq<AuditEvent>, a: AuditEvent, workspace: string)
    ensures a.content.workspace != workspace ==> TopAudit(audits + [a], workspace) == TopAudit(audits, workspace)
    ensures a.content.workspace == workspace &&
            (TopAudit(audits, workspace).None? ||
             TopAudit(audits, workspace).value.content.sequence < a.content.sequence) ==>
              TopAudit(audits + [a], workspace) == Some(a)
  {
    assert (audits + [a])[..|audits|] == audits;
  }

  lemma {:induction false} TopEventAppend(events: seq<DomainEvent>, e: DomainEvent, workspace: string)
    ensures e.workspace != workspace ==> TopEvent(events + [e], workspace) == TopEvent(events, workspace)
    ensures e.workspace == workspace &&
            (TopEvent(events, workspace).None? || TopEvent(events, workspace).value.sequence < e.sequence) ==>
              TopEvent(events + [e], workspace) == Some(e)
  {
    assert (events + [e])[..|events|] == events;
  }

  lemma {:induction false} TopAuditMember(audits: seq<AuditEvent>, workspace: string)
    ensures TopAudit(audits, workspace).Some? ==>
              TopAudit(audits, workspace).value in audits &&
              TopAudit(audits, workspace).value.content.workspace == workspace
  {
    if audits != [] {
      TopAuditMember(audits[..|audits| - 1], workspace);
    }
  }

  // ---- one insertion ----

  lemma InsertedAudit(store: Store, d: Deployment, uuid: string, instant: Instant, w: string, p: string)
    requires InitializeOne(store, d, uuid, instant).Ok?
    ensures var after := InitializeOne(store, d, uuid, instant).value;
            var a := NewAudit(store, Disabled(d), LegacyTarget(d.status).value, uuid, instant);
            && after.audits == store.audits + [a]
            && Filter(after.audits, BaselineAuditOf(w, p)) ==
                 Filter(store.audits, BaselineAuditOf(w, p)) + (if w == d.workspace && p == d.paper then [a] else [])
  {
  }

  lemma InsertedEvent(store: Store, d: Deployment, uuid: string, instant: Instant, w: string, p: string, id: string)
    requires InitializeOne(store, d, uuid, instant).Ok?
    ensures var after := InitializeOne(store, d, uuid, instant).value;
            var e := NewEvent(store, Disabled(d), LegacyTarget(d.status).value, uuid, instant);
            && after.events == store.events + [e]
            && Filter(after.events, UpdateEventOf(w, p, id)) ==
                 Filter(store.events, UpdateEventOf(w, p, id)) +
                 (if w == d.workspace && p == d.paper && id == "EVT-" + uuid then [e] else [])
  {
  }

  lemma InsertedState(store: Store, d: Deployment, uuid: string, instant: Instant, e: Deployment)
    requires InitializeOne(store, d, uuid, instant).Ok?
    ensures InitializeOne(store, d, uuid, instant).value.states ==
            store.states + [NewState(Disabled(d), LegacyTarget(d.status).value, instant)]
    ensures var after := InitializeOne(store, d, uuid, instant).value;
            StatesOf(after, e) == StatesOf(store, e) +
              (if e.workspace == d.workspace && e.id == d.id
               then [NewState(Disabled(d), LegacyTarget(d.status).value, instant)] else [])
  {
  }

  // Expiry marks never move; a new watermark starts at zero, below every sequence.
  lemma InsertedExpiry(store: Store, d: Deployment, uuid: string, instant: Instant, w: string, sequence: int)
    requires InitializeOne(store, d, uuid, instant).Ok? && sequence >= 1
    ensures Expired(InitializeOne(store, d, uuid, instant).value.watermarks, w, sequence) <==>
            Expired(store.watermarks, w, sequence)
  {
  }

  lemma InsertedSupport(store: Store, d: Deployment, uuid: string, instant: Instant, w: string)
    requires InitializeOne(store, d, uuid, instant).Ok?
    ensures var after := InitializeOne(store, d, uuid, instant).value;
            if w == d.workspace then
              && TopEvent(after.events, w).Some?
              && (SupportValid(after, w) <==> RetentionReady(store, w))
            else
              && (SupportValid(after, w) <==> SupportValid(store, w))
              && (RetentionReady(after, w) <==> RetentionReady(store, w))
  {
    hide TopAudit;
    hide TopEvent;
    hide DisableIn;
    hide LegacyTarget;
    hide NewState;
    var target := LegacyTarget(d.status).value;
    TopAuditAppend(store.audits, NewAudit(store, Disabled(d), target, uuid, instant), w);
    TopEventAppend(store.events, NewEvent(store, Disabled(d), target, uuid, instant), w);
  }

  // The same deployment, its status perhaps rewritten within its class.
  ghost predicate Alike(d: Deployment, e: Deployment) {
    && d.workspace == e.workspace && d.id == e.id && d.paper == e.paper && d.revision == e.revision
    && LegacyTarget(d.status) == LegacyTarget(e.status)
  }

  ghost predicate Relabelled(before: seq<Deployment>, after: seq<Deployment>) {
    |before| == |after| && forall i :: 0 <= i < |before| ==> Alike(before[i], after[i])
  }

  // Whatever row the status update hits is the deployment itself.
  ghost predicate Identifies(d: Deployment, deployments: seq<Deployment>) {
    forall i :: 0 <= i < |deployments| && deployments[i].id == d.id && deployments[i].workspace == d.workspace ==>
      Alike(d, deployments[i])
  }

  lemma InsertedDeployments(store: Store, d: Deployment, uuid: string, instant: Instant)
    requires InitializeOne(store, d, uuid, instant).Ok? && Identifies(d, store.deployments)
    ensures Relabelled(store.deployments, InitializeOne(store, d, uuid, instant).value.deployments)
  {
  }

  // ---- all insertions ----

  ghost predicate Touches(targets: seq<Deployment>, w: string, p: string) {
    exists i :: 0 <= i < |targets| && targets[i].workspace == w && targets[i].paper == p
  }

  ghost predicate InWorkspace(targets: seq<Deployment>, w: string) {
    exists i :: 0 <= i < |targets| && targets[i].workspace == w
  }

  ghost predicate Separate(targets: seq<Deployment>) {
    forall i, j :: 0 <= i < j < |targets| ==> !SameDeployment(targets[i], targets[j])
  }

  lemma {:induction false} UntouchedRows(store: Store, targets: seq<Deployment>, uuids: seq<string>, instant: Instant,
                                         w: string, p: string, id: string)
    requires |uuids| >= |targets| && InitializeAll(store, targets, uuids, instant).Ok?
    requires !Touches(targets, w, p)
    ensures var s := InitializeAll(store, targets, uuids, instant).value;
            && Filter(s.audits, BaselineAuditOf(w, p)) == Filter(store.audits, BaselineAuditOf(w, p))
            && Filter(s.events, UpdateEventOf(w, p, id)) == Filter(store.events, UpdateEventOf(w, p, id))
  {
    hide InitializeOne;
    if targets != [] {
      var n := |targets| - 1;
      var s := InitializeAll(store, targets[..n], uuids, instant).value;
      TouchesStep(targets, w, p);
      UntouchedRows(store, targets[..n], uuids, instant, w, p, id);
      InsertedAudit(s, targets[n], uuids[n], instant, w, p);
      InsertedEvent(s, targets[n], uuids[n], instant, w, p, id);
    }
  }

  lemma {:induction false} Expiry(store: Store, targets: seq<Deployment>, uuids: seq<string>, instant: Instant,
                                  w: string, sequence: int)
    requires |uuids| >= |targets| && InitializeAll(store, targets, uuids, instant).Ok? && sequence >= 1
    ensures Expired(InitializeAll(store, targets, uuids, instant).value.watermarks, w, sequence) <==>
            Expired(store.watermarks, w, sequence)
  {
    hide InitializeOne;
    hide Expired;
    if targets != [] {
      var n := |targets| - 1;
      Expiry(store, targets[..n], uuids, instant, w, sequence);
      InsertedExpiry(InitializeAll(store, targets[..n], uuids, instant).value, targets[n], uuids[n], instant, w,
        sequence);
    }
  }

  // In a workspace that receives baselines, the support rows end up valid exactly
  // when they were valid before and numbering does not restart below the expiry mark.
  lemma {:induction false} Support(store: Store, targets: seq<Deployment>, uuids: seq<string>, instant: Instant,
                                   w: string)
    requires |uuids| >= |targets| && InitializeAll(store, targets, uuids, instant).Ok?
    ensures var s := InitializeAll(store, targets, uuids, instant).value;
            if InWorkspace(targets, w) then
              && SupportValid(store, w)
              && TopEvent(s.events, w).Some?
              && (SupportValid(s, w) <==> RetentionReady(store, w))
            else
              && (SupportValid(s, w) <==> SupportValid(store, w))
              && (RetentionReady(s, w) <==> RetentionReady(store, w))
  {
    hide SupportValid;
    if targets != [] {
      var n := |targets| - 1;
      var s := InitializeAll(store, targets[..n], uuids, instant).value;
      Support(store, targets[..n], uuids, instant, w);
      InsertedSupport(s, targets[n], uuids[n], instant, w);
      InWorkspaceStep(targets, w);
    }
  }

  lemma TouchesStep(targets: seq<Deployment>, w: string, p: string)
    requires targets != []
    ensures var n := |targets| - 1;
            Touches(targets, w, p) <==>
              Touches(targets[..n], w, p) || (targets[n].workspace == w && targets[n].paper == p)
  {
  }

  lemma InWorkspaceStep(targets: seq<Deployment>, w: string)
    requires targets != []
    ensures var n := |targets| - 1;
            InWorkspace(targets, w) <==> InWorkspace(targets[..n], w) || targets[n].workspace == w
  {
  }

  lemma {:induction false} InitializeAllSucceeds(store: Store, targets: seq<Deployment>, uuids: seq<string>,
                                                 instant: Instant)
    requires |uuids| >= |targets|
    requires forall i :: 0 <= i < |targets| ==>
               LegacyTarget(targets[i].status).Some? && SupportValid(store, targets[i].workspace) &&
               RetentionReady(store, targets[i].workspace)
    ensures InitializeAll(store, targets, uuids, instant).Ok?
  {
    hide SupportValid;
    hide RetentionReady;
    hide LegacyTarget;
    hide InsertBaseline;
    if targets != [] {
      var n := |targets| - 1;
      InitializeAllSucceeds(store, targets[..n], uuids, instant);
      Support(store, targets[..n], uuids, instant, targets[n].workspace);
    }
  }

  lemma {:induction false} Deployments(store: Store, targets: seq<Deployment>, uuids: seq<string>, instant: Instant)
    requires |uuids| >= |targets| && InitializeAll(store, targets, uuids, instant).Ok?
    requires forall i :: 0 <= i < |targets| ==> Identifies(targets[i], store.deployments)
    ensures Relabelled(store.deployments, InitializeAll(store, targets, uuids, instant).value.deployments)
  {
    hide InitializeOne;
    hide LegacyTarget;
    if targets != [] {
      var n := |targets| - 1;
      Deployments(store, targets[..n], uuids, instant);
      var s := InitializeAll(store, targets[..n], uuids, instant).value;
      InsertedDeployments(s, targets[n], uuids[n], instant);
    }
  }

  // ---- the rows of one target ----

  ghost function Proof(d: Deployment, uuid: string, instant: Instant): Evidence
    requires LegacyTarget(d.status).Some?
  {
    NewEvidence(d, LegacyTarget(d.status).value, uuid, instant)
  }

  lemma {:induction false} TargetRows(store: Store, targets: seq<Deployment>, uuids: seq<string>, instant: Instant,
                                      k: nat)
    returns (a: AuditEvent, e: DomainEvent)
    requires |uuids| >= |targets| && InitializeAll(store, targets, uuids, instant).Ok?
    requires Separate(targets) && k < |targets| && Classifiable(targets[k])
    ensures var t, s := targets[k], InitializeAll(store, targets, uuids, instant).value;
            && a.content.summary == BaselineSummary(Proof(t, uuids[k], instant))
            && EventMatches(e, Proof(t, uuids[k], instant))
            && WrittenFor(t, instant, a, e)
            && Filter(s.audits, BaselineAuditOf(t.workspace, t.paper)) ==
                 Filter(store.audits, BaselineAuditOf(t.workspace, t.paper)) + [a]
            && Filter(s.events, UpdateEventOf(t.workspace, t.paper, "EVT-" + uuids[k])) ==
                 Filter(store.events, UpdateEventOf(t.workspace, t.paper, "EVT-" + uuids[k])) + [e]
  {
    hide LegacyTarget;
    hide InitializeOne;
    hide NewAudit;
    hide NewEvent;
    hide EventMatches;
    hide WrittenFor;
    hide Filter;
    var n := |targets| - 1;
    var t, id := targets[k], "EVT-" + uuids[k];
    var s := InitializeAll(store, targets[..n], uuids, instant).value;
    if k < n {
      a, e := TargetRows(store, targets[..n], uuids, instant, k);
      assert !SameDeployment(t, targets[n]);
    } else {
      var target := LegacyTarget(t.status).value;
      a, e := NewAudit(s, Disabled(t), target, uuids[k], instant), NewEvent(s, Disabled(t), target, uuids[k], instant);
      WrittenRows(s, t, uuids[k], instant);
      UntouchedBefore(targets, n);
      UntouchedRows(store, targets[..n], uuids, instant, t.workspace, t.paper, id);
    }
    InsertedAudit(s, targets[n], uuids[n], instant, t.workspace, t.paper);
    InsertedEvent(s, targets[n], uuids[n], instant, t.workspace, t.paper, id);
  }

  ghost predicate WrittenFor(d: Deployment, instant: Instant, a: AuditEvent, e: DomainEvent) {
    a.content.objectRevision == d.revision && a.content.occurredAt == instant && e.objectRevision == Some(d.revision)
  }

  lemma WrittenRows(store: Store, d: Deployment, uuid: string, instant: Instant)
    requires Classifiable(d)
    ensures var target := LegacyTarget(d.status).value;
            && NewAudit(store, Disabled(d), target, uuid, instant).content.summary ==
                 BaselineSummary(Proof(d, uuid, instant))
            && EventMatches(NewEvent(store, Disabled(d), target, uuid, instant), Proof(d, uuid, instant))
            && WrittenFor(d, instant, NewAudit(store, Disabled(d), target, uuid, instant),
                          NewEvent(store, Disabled(d), target, uuid, instant))
  {
  }

  lemma UntouchedBefore(targets: seq<Deployment>, n: nat)
    requires Separate(targets) && n < |targets|
    ensures !Touches(targets[..n], targets[n].workspace, targets[n].paper)
  {
  }

  lemma {:induction false} OtherStates(store: Store, targets: seq<Deployment>, uuids: seq<string>, instant: Instant,
                                       d: Deployment)
    requires |uuids| >= |targets| && InitializeAll(store, targets, uuids, instant).Ok?
    requires forall i :: 0 <= i < |targets| ==> !SameDeployment(targets[i], d)
    ensures StatesOf(InitializeAll(store, targets, uuids, instant).value, d) == StatesOf(store, d)
  {
    hide InitializeOne;
    hide StatesOf;
    if targets != [] {
      var n := |targets| - 1;
      OtherStates(store, targets[..n], uuids, instant, d);
      assert !SameDeployment(targets[n], d);
      InsertedState(InitializeAll(store, targets[..n], uuids, instant).value, targets[n], uuids[n], instant, d);
    }
  }

  lemma {:induction false} TargetStates(store: Store, targets: seq<Deployment>, uuids: seq<string>, instant: Instant,
                                        k: nat)
    requires |uuids| >= |targets| && InitializeAll(store, targets, uuids, instant).Ok?
    requires Separate(targets) && k < |targets| && Classifiable(targets[k])
    ensures StatesOf(InitializeAll(store, targets, uuids, instant).value, targets[k]) ==
            StatesOf(store, targets[k]) +
            [NewState(Disabled(targets[k]), LegacyTarget(targets[k].status).value, instant)]
  {
    hide LegacyTarget;
    hide StatesOf;
    hide InitializeOne;
    var n := |targets| - 1;
    var s := InitializeAll(store, targets[..n], uuids, instant).value;
    if k < n {
      TargetStates(store, targets[..n], uuids, instant, k);
      assert !SameDeployment(targets[k], targets[n]);
    } else {
      forall i | 0 <= i < n
        ensures !SameDeployment(targets[..n][i], targets[k])
      {
        assert !SameDeployment(targets[i], targets[k]);
      }
      OtherStates(store, targets[..n], uuids, instant, targets[k]);
    }
    InsertedState(s, targets[n], uuids[n], instant, targets[k]);
  }

  // ---- what the validator makes of it ----

  lemma {:induction false} NoFreshEvent(events: seq<DomainEvent>, w: string, p: string, id: string)
    requires forall i :: 0 <= i < |events| ==> events[i].eventId != id
    ensures Filter(events, UpdateEventOf(w, p, id)) == []
  {
    if events != [] { NoFreshEvent(events[..|events| - 1], w, p, id); }
  }

  lemma ProofValid(d: Deployment, uuid: string, instant: Instant)
    requires Classifiable(d) && Uuid4(uuid)
    ensures EvidenceValid(Proof(d, uuid, instant), d)
  {
  }

  // A deployment that receives a baseline ends up proven exactly when it had no
  // earlier evidence of one.
  lemma TargetProven(store: Store, targets: seq<Deployment>, uuids: seq<string>, instant: Instant, k: nat)
    requires |uuids| >= |targets| && InitializeAll(store, targets, uuids, instant).Ok?
    requires Separate(targets) && k < |targets| && Classifiable(targets[k])
    requires StatesOf(store, targets[k]) == [] && Fresh(store, uuids)
    ensures DeploymentProven(InitializeAll(store, targets, uuids, instant).value, targets[k]) <==>
            Filter(store.audits, BaselineAuditOf(targets[k].workspace, targets[k].paper)) == []
  {
    hide InitializeAll;
    hide Filter;
    hide EvidenceValid;
    hide EventMatches;
    hide LegacyTarget;
    hide StatesOf;
    hide NewEvidence;
    hide Uuid4;
    var t := targets[k];
    var s := InitializeAll(store, targets, uuids, instant).value;
    var a, e := TargetRows(store, targets, uuids, instant, k);
    TargetStates(store, targets, uuids, instant, k);
    NoFreshEvent(store.events, t.workspace, t.paper, "EVT-" + uuids[k]);
    ProofValid(t, uuids[k], instant);
    ProofId(t, uuids[k], instant);
    NewStateValid(t, instant);
  }

  lemma ProofId(d: Deployment, uuid: string, instant: Instant)
    requires Classifiable(d)
    ensures Proof(d, uuid, instant).transitionId == "EVT-" + uuid
  {
  }

  lemma NewStateValid(d: Deployment, instant: Instant)
    requires Classifiable(d)
    ensures BaselineValid(NewState(Disabled(d), LegacyTarget(d.status).value, instant), d)
  {
  }

  lemma {:induction false} FirstAuditNumbered(audits: seq<AuditEvent>, w: string, p: string)
    requires forall i :: 0 <= i < |audits| ==> audits[i].content.sequence >= 1
    ensures forall i :: 0 <= i < |Filter(audits, BaselineAuditOf(w, p))| ==>
              Filter(audits, BaselineAuditOf(w, p))[i].content.sequence >= 1
  {
    if audits != [] { FirstAuditNumbered(audits[..|audits| - 1], w, p); }
  }

  // Any other deployment is as proven, or as unproven, as it was.
  lemma OtherProven(store: Store, targets: seq<Deployment>, uuids: seq<string>, instant: Instant, d: Deployment)
    requires |uuids| >= |targets| && InitializeAll(store, targets, uuids, instant).Ok?
    requires forall i :: 0 <= i < |targets| ==> !SameDeployment(targets[i], d)
    requires Numbered(store)
    ensures DeploymentProven(InitializeAll(store, targets, uuids, instant).value, d) <==> DeploymentProven(store, d)
  {
    hide InitializeAll;
    hide Filter;
    hide EvidenceValid;
    hide EventMatches;
    hide StatesOf;
    hide Expired;
    var s := InitializeAll(store, targets, uuids, instant).value;
    assert !Touches(targets, d.workspace, d.paper);
    OtherStates(store, targets, uuids, instant, d);
    UntouchedRows(store, targets, uuids, instant, d.workspace, d.paper, "");
    FirstAuditNumbered(store.audits, d.workspace, d.paper);
    var audits := Filter(store.audits, BaselineAuditOf(d.workspace, d.paper));
    if |audits| == 1 && audits[0].content.summary.BaselineSummary? {
      var e := audits[0].content.summary.evidence;
      UntouchedRows(store, targets, uuids, instant, d.workspace, d.paper, e.transitionId);
      Expiry(store, targets, uuids, instant, d.workspace, audits[0].content.sequence);
    }
  }
}
