// The main results about the migration as a whole.
module SchedulerTheorems {
  import opened Wrappers
  import opened Filters
  import opened SchedulerStore
  import opened SchedulerInit
  import opened SchedulerProof

  ghost function Targets(store: Store): seq<Deployment> {
    Missing(store, store.deployments)
  }

  lemma {:induction false} FilterIndices<T>(s: seq<T>, p: T -> bool) returns (at: seq<nat>)
    ensures |at| == |Filter(s, p)|
    ensures forall i :: 0 <= i < |at| ==> at[i] < |s| && s[at[i]] == Filter(s, p)[i] && p(s[at[i]])
    ensures forall i, j :: 0 <= i < j < |at| ==> at[i] < at[j]
    ensures forall k :: 0 <= k < |s| && p(s[k]) ==> k in at
  {
    at := [];
    if s != [] {
      var n := |s| - 1;
      at := FilterIndices(s[..n], p);
      if p(s[n]) { at := at + [n]; }
    }
  }

  // The positions of the targets among the deployments.
  ghost predicate Positions(store: Store, at: seq<nat>) {
    && |at| == |Targets(store)|
    && (forall i :: 0 <= i < |at| ==> at[i] < |store.deployments| && store.deployments[at[i]] == Targets(store)[i])
    && (forall i :: 0 <= i < |at| ==> StatesOf(store, Targets(store)[i]) == [])
    && (forall k :: 0 <= k < |store.deployments| && StatesOf(store, store.deployments[k]) == [] ==> k in at)
  }

  lemma TargetsSeparate(store: Store) returns (at: seq<nat>)
    requires Authority(store.deployments)
    ensures Positions(store, at)
    ensures |Targets(store)| <= |store.deployments|
    ensures Separate(Targets(store))
    ensures forall i :: 0 <= i < |at| ==> Classifiable(Targets(store)[i])
  {
    hide StatesOf;
    hide Classifiable;
    hide SameDeployment;
    at := FilterIndices(store.deployments, (d: Deployment) => StatesOf(store, d) == []);
    MissingFewer(store, store.deployments);
    forall i, j | 0 <= i < j < |at|
      ensures !SameDeployment(Targets(store)[i], Targets(store)[j])
    {
      assert !SameDeployment(store.deployments[at[i]], store.deployments[at[j]]);
    }
  }

  lemma TargetsIdentify(store: Store, at: seq<nat>)
    requires Authority(store.deployments) && Positions(store, at)
    ensures forall i :: 0 <= i < |at| ==> Identifies(Targets(store)[i], store.deployments)
  {
  }

  lemma RelabelledAuthority(before: seq<Deployment>, after: seq<Deployment>)
    requires Relabelled(before, after) && Authority(before)
    ensures Authority(after)
  {
  }

  lemma {:induction false} WrittenStates(store: Store, targets: seq<Deployment>, uuids: seq<string>, instant: Instant)
    requires |uuids| >= |targets| && InitializeAll(store, targets, uuids, instant).Ok?
    ensures var s := InitializeAll(store, targets, uuids, instant).value;
            && |s.states| == |store.states| + |targets|
            && s.states[..|store.states|] == store.states
            && forall i :: 0 <= i < |targets| ==>
                 s.states[|store.states| + i].workspace == targets[i].workspace &&
                 s.states[|store.states| + i].deployment == targets[i].id
  {
    hide InitializeOne;
    if targets != [] {
      var n := |targets| - 1;
      WrittenStates(store, targets[..n], uuids, instant);
      InsertedState(InitializeAll(store, targets[..n], uuids, instant).value, targets[n], uuids[n], instant,
        targets[n]);
    }
  }

  lemma StillNoOrphans(store: Store, uuids: seq<string>, instant: Instant, at: seq<nat>)
    requires |uuids| >= |Targets(store)| && InitializeAll(store, Targets(store), uuids, instant).Ok?
    requires Positions(store, at) && NoOrphans(store)
    requires Relabelled(store.deployments, InitializeAll(store, Targets(store), uuids, instant).value.deployments)
    ensures NoOrphans(InitializeAll(store, Targets(store), uuids, instant).value)
  {
    hide InitializeAll;
    hide Missing;
    hide LegacyTarget;
    hide StatesOf;
    var s := InitializeAll(store, Targets(store), uuids, instant).value;
    WrittenStates(store, Targets(store), uuids, instant);
    forall i | 0 <= i < |s.states|
      ensures Belongs(s.states[i], s.deployments)
    {
      if i < |store.states| {
        assert s.states[..|store.states|][i] == s.states[i] == store.states[i];
        assert Belongs(store.states[i], store.deployments);
        var j :| 0 <= j < |store.deployments| && store.states[i].workspace == store.deployments[j].workspace &&
                 store.states[i].deployment == store.deployments[j].id;
        assert Alike(store.deployments[j], s.deployments[j]);
      } else {
        var k := i - |store.states|;
        assert s.states[|store.states| + k] == s.states[i];
        assert Alike(store.deployments[at[k]], s.deployments[at[k]]);
      }
    }
  }

  // ---- when the upgrade succeeds ----

  // Each deployment, after the insertions.
  lemma DeploymentOutcome(store: Store, uuids: seq<string>, instant: Instant, at: seq<nat>, i: nat)
    requires Authority(store.deployments) && Numbered(store) && Fresh(store, uuids) && i < |store.deployments|
    requires |uuids| >= |Targets(store)| && InitializeAll(store, Targets(store), uuids, instant).Ok?
    requires Positions(store, at) && Separate(Targets(store))
    ensures var s, d := InitializeAll(store, Targets(store), uuids, instant).value, store.deployments[i];
            DeploymentProven(s, d) <==>
              if StatesOf(store, d) == [] then Filter(store.audits, BaselineAuditOf(d.workspace, d.paper)) == []
              else DeploymentProven(store, d)
  {
    hide InitializeAll;
    hide SupportValid;
    hide DeploymentProven;
    hide StatesOf;
    hide Missing;
    hide Classifiable;
    hide Uuid4;
    var d := store.deployments[i];
    if StatesOf(store, d) == [] {
      var k :| 0 <= k < |at| && at[k] == i;
      TargetProven(store, Targets(store), uuids, instant, k);
    } else {
      forall k | 0 <= k < |at|
        ensures !SameDeployment(Targets(store)[k], d)
      {
        assert at[k] < i ==> !SameDeployment(store.deployments[at[k]], store.deployments[i]);
        assert i < at[k] ==> !SameDeployment(store.deployments[i], store.deployments[at[k]]);
      }
      OtherProven(store, Targets(store), uuids, instant, d);
    }
  }

  // Readiness, deployment by deployment, once the static checks have passed.
  ghost predicate EachReady(store: Store) {
    forall i :: 0 <= i < |store.deployments| ==> DeploymentReady(store, store.deployments[i])
  }

  ghost predicate EachProven(store: Store, s: Store) {
    forall i :: 0 <= i < |store.deployments| ==>
      DeploymentProven(s, store.deployments[i]) && SupportValid(s, store.deployments[i].workspace)
  }

  lemma EachReadyIsEachProven(store: Store, uuids: seq<string>, instant: Instant, at: seq<nat>)
    requires Authority(store.deployments) && Numbered(store) && Fresh(store, uuids)
    requires |uuids| >= |Targets(store)| && InitializeAll(store, Targets(store), uuids, instant).Ok?
    requires Positions(store, at) && Separate(Targets(store))
    ensures EachReady(store) <==> EachProven(store, InitializeAll(store, Targets(store), uuids, instant).value)
  {
    hide InitializeAll;
    hide SupportValid;
    hide RetentionReady;
    hide DeploymentProven;
    hide StatesOf;
    hide Missing;
    hide Classifiable;
    hide Uuid4;
    hide Filter;
    var s := InitializeAll(store, Targets(store), uuids, instant).value;
    forall i | 0 <= i < |store.deployments|
      ensures DeploymentProven(s, store.deployments[i]) <==>
              if StatesOf(store, store.deployments[i]) == []
              then Filter(store.audits,
                BaselineAuditOf(store.deployments[i].workspace, store.deployments[i].paper)) == []
              else DeploymentProven(store, store.deployments[i])
    {
      DeploymentOutcome(store, uuids, instant, at, i);
    }
    forall i | 0 <= i < |store.deployments|
      ensures InWorkspace(Targets(store), store.deployments[i].workspace) ==>
                (SupportValid(s, store.deployments[i].workspace) <==>
                    RetentionReady(store, store.deployments[i].workspace)) &&
                SupportValid(store, store.deployments[i].workspace)
      ensures !InWorkspace(Targets(store), store.deployments[i].workspace) ==>
                (SupportValid(s, store.deployments[i].workspace) <==>
                    SupportValid(store, store.deployments[i].workspace))
      ensures StatesOf(store, store.deployments[i]) == [] ==>
                InWorkspace(Targets(store), store.deployments[i].workspace)
    {
      Support(store, Targets(store), uuids, instant, store.deployments[i].workspace);
      if StatesOf(store, store.deployments[i]) == [] {
        var k :| 0 <= k < |at| && at[k] == i;
      }
    }
    if EachReady(store) {
      forall i | 0 <= i < |store.deployments|
        ensures DeploymentProven(s, store.deployments[i]) && SupportValid(s, store.deployments[i].workspace)
      {
        assert DeploymentReady(store, store.deployments[i]);
        if InWorkspace(Targets(store), store.deployments[i].workspace) {
          var k :| 0 <= k < |at| && Targets(store)[k].workspace == store.deployments[i].workspace;
          assert DeploymentReady(store, store.deployments[at[k]]);
        }
      }
    }
  }

  lemma AlikeEach(store: Store, s: Store)
    requires Relabelled(store.deployments, s.deployments)
    ensures EachProven(store, s) <==>
              forall i :: 0 <= i < |s.deployments| ==>
                DeploymentProven(s, s.deployments[i]) && SupportValid(s, s.deployments[i].workspace)
  {
  }

  // Readiness makes every insertion go through.
  lemma ReadyInitializes(store: Store, uuids: seq<string>, instant: Instant, at: seq<nat>)
    requires Authority(store.deployments) && EachReady(store) && |uuids| >= |Targets(store)|
    requires Positions(store, at)
    requires forall i :: 0 <= i < |at| ==> Classifiable(Targets(store)[i])
    ensures InitializeAll(store, Targets(store), uuids, instant).Ok?
  {
    hide InitializeAll;
    hide SupportValid;
    hide RetentionReady;
    hide StatesOf;
    hide Missing;
    hide LegacyTarget;
    hide Filter;
    forall k | 0 <= k < |at|
      ensures LegacyTarget(Targets(store)[k].status).Some?
      ensures SupportValid(store, Targets(store)[k].workspace) && RetentionReady(store, Targets(store)[k].workspace)
    {
      assert Classifiable(Targets(store)[k]);
      assert DeploymentReady(store, store.deployments[at[k]]);
    }
    InitializeAllSucceeds(store, Targets(store), uuids, instant);
  }

  // The upgrade succeeds exactly on the ready stores, for any number of
  // deployments and workspaces.
  lemma UpgradeExactly(store: Store, uuids: seq<string>, instant: Instant)
    requires Numbered(store) && Fresh(store, uuids) && |uuids| >= |store.deployments|
    ensures Upgrade(store, uuids, instant).Ok? <==> Ready(store)
  {
    hide InitializeAll;
    hide SupportValid;
    hide DeploymentReady;
    hide DeploymentProven;
    hide Missing;
    hide Fresh;
    hide Numbered;
    hide Classifiable;
    hide SameDeployment;
    hide StatesOf;
    hide NoOrphans;
    hide Positions;
    if Authority(store.deployments) && StatesUnambiguous(store) {
      var at := TargetsSeparate(store);
      if EachReady(store) {
        ReadyInitializes(store, uuids, instant, at);
      }
      if InitializeAll(store, Targets(store), uuids, instant).Ok? {
        ValidatedOutcome(store, uuids, instant, at);
      }
    }
  }

  lemma ValidatedOutcome(store: Store, uuids: seq<string>, instant: Instant, at: seq<nat>)
    requires Numbered(store) && Fresh(store, uuids) && |uuids| >= |Targets(store)|
    requires Authority(store.deployments) && StatesUnambiguous(store)
    requires InitializeAll(store, Targets(store), uuids, instant).Ok?
    requires Positions(store, at) && Separate(Targets(store))
    ensures Validated(InitializeAll(store, Targets(store), uuids, instant).value) <==> EachReady(store)
  {
    hide InitializeAll;
    hide SupportValid;
    hide DeploymentReady;
    hide DeploymentProven;
    hide Missing;
    hide Fresh;
    hide Numbered;
    hide Authority;
    hide NoOrphans;
    hide StatesOf;
    hide EachProven;
    var s := InitializeAll(store, Targets(store), uuids, instant).value;
    TargetsIdentify(store, at);
    Deployments(store, Targets(store), uuids, instant);
    RelabelledAuthority(store.deployments, s.deployments);
    StillNoOrphans(store, uuids, instant, at);
    EachReadyIsEachProven(store, uuids, instant, at);
    AlikeEach(store, s);
  }

  // ---- running it again ----

  lemma {:induction false} NothingMissing(store: Store, deployments: seq<Deployment>)
    requires forall i :: 0 <= i < |deployments| ==> StatesOf(store, deployments[i]) != []
    ensures Missing(store, deployments) == []
  {
    hide StatesOf;
    if deployments != [] { NothingMissing(store, deployments[..|deployments| - 1]); }
  }

  // On a validated store the upgrade succeeds and changes nothing, whatever the
  // clock and the generator yield; in particular right after a first run.
  lemma RerunChangesNothing(store: Store, uuids: seq<string>, instant: Instant)
    requires Validated(store) && |uuids| >= |store.deployments|
    ensures Upgrade(store, uuids, instant) == Ok(store)
  {
    hide SupportValid;
    hide BaselineValid;
    hide EvidenceProven;
    hide Authority;
    hide StatesOf;
    hide NoOrphans;
    forall i | 0 <= i < |store.deployments|
      ensures |StatesOf(store, store.deployments[i])| == 1
    {
      assert DeploymentProven(store, store.deployments[i]);
    }
    NothingMissing(store, store.deployments);
  }

  // ---- the hash chain ----

  function Earlier(workspace: string, sequence: int): AuditEvent -> bool {
    (a: AuditEvent) => a.content.workspace == workspace && a.content.sequence < sequence
  }

  // The hash of the row with the greatest sequence below a given one.
  ghost function HashBelow(audits: seq<AuditEvent>, workspace: string, sequence: int): Option<Digest> {
    match TopAudit(Filter(audits, Earlier(workspace, sequence)), workspace)
    case None => None
    case Some(a) => Some(a.hash)
  }

  // Every row carries the hash of the row before it in its workspace.
  ghost predicate Linked(audits: seq<AuditEvent>) {
    forall i :: 0 <= i < |audits| ==>
      audits[i].content.previous == HashBelow(audits, audits[i].content.workspace, audits[i].content.sequence)
  }

  lemma {:induction false} TopAuditGreatest(audits: seq<AuditEvent>, workspace: string)
    ensures forall i :: 0 <= i < |audits| && audits[i].content.workspace == workspace ==>
              TopAudit(audits, workspace).Some? &&
              audits[i].content.sequence <= TopAudit(audits, workspace).value.content.sequence
  {
    if audits != [] { TopAuditGreatest(audits[..|audits| - 1], workspace); }
  }

  lemma {:induction false} TopOfFiltered(audits: seq<AuditEvent>, workspace: string, sequence: int)
    requires forall i :: 0 <= i < |audits| && audits[i].content.workspace == workspace ==>
               audits[i].content.sequence < sequence
    ensures TopAudit(Filter(audits, Earlier(workspace, sequence)), workspace) == TopAudit(audits, workspace)
  {
    if audits != [] {
      var n := |audits| - 1;
      TopOfFiltered(audits[..n], workspace, sequence);
      var rest := Filter(audits[..n], Earlier(workspace, sequence));
      assert (rest + [audits[n]])[..|rest|] == rest;
    }
  }

  lemma LinkedStep(store: Store, d: Deployment, uuid: string, instant: Instant)
    requires Linked(store.audits) && InitializeOne(store, d, uuid, instant).Ok?
    ensures Linked(InitializeOne(store, d, uuid, instant).value.audits)
  {
    hide SupportValid;
    hide Filter;
    hide LegacyTarget;
    hide TopAudit;
    var a := NewAudit(store, Disabled(d), LegacyTarget(d.status).value, uuid, instant);
    var audits, after := store.audits, store.audits + [a];
    InsertedAudit(store, d, uuid, instant, "", "");
    TopAuditGreatest(audits, d.workspace);
    forall i | 0 <= i < |after|
      ensures after[i].content.previous == HashBelow(after, after[i].content.workspace, after[i].content.sequence)
    {
      var w, n := after[i].content.workspace, after[i].content.sequence;
      FilterAppend(audits, a, Earlier(w, n));
      if i < |audits| {
        assert after[i] == audits[i];
      } else {
        TopOfFiltered(audits, w, n);
      }
      assert Filter(after, Earlier(w, n)) == Filter(audits, Earlier(w, n));
    }
  }

  lemma {:induction false} LinkedAll(store: Store, targets: seq<Deployment>, uuids: seq<string>, instant: Instant)
    requires |uuids| >= |targets|
    ensures match InitializeAll(store, targets, uuids, instant)
            case Ok(after) => Linked(store.audits) ==> Linked(after.audits)
            case Err(_) => true
  {
    hide InitializeOne;
    hide Linked;
    if targets != [] && Linked(store.audits) && InitializeAll(store, targets, uuids, instant).Ok? {
      var n := |targets| - 1;
      LinkedAll(store, targets[..n], uuids, instant);
      LinkedStep(InitializeAll(store, targets[..n], uuids, instant).value, targets[n], uuids[n], instant);
    }
  }

  // ---- what a successful upgrade leaves alone ----

  lemma {:induction false} AppendsOnly(store: Store, targets: seq<Deployment>, uuids: seq<string>, instant: Instant)
    requires |uuids| >= |targets| && InitializeAll(store, targets, uuids, instant).Ok?
    ensures var s := InitializeAll(store, targets, uuids, instant).value;
            && store.states <= s.states && store.audits <= s.audits && store.events <= s.events
            && |s.states| - |store.states| == |targets|
            && |s.audits| - |store.audits| == |targets|
            && |s.events| - |store.events| == |targets|
  {
    hide InitializeOne;
    hide NewAudit;
    hide NewEvent;
    hide NewState;
    if targets != [] {
      var n := |targets| - 1;
      AppendsOnly(store, targets[..n], uuids, instant);
      var s := InitializeAll(store, targets[..n], uuids, instant).value;
      InsertedState(s, targets[n], uuids[n], instant, targets[n]);
      InsertedAudit(s, targets[n], uuids[n], instant, "", "");
      InsertedEvent(s, targets[n], uuids[n], instant, "", "", "");
    }
  }

  // A successful upgrade validates, appends one state, one audit row and one event
  // per deployment that lacked a state, removes nothing, and keeps the chain linked.
  lemma UpgradeOutcome(store: Store, uuids: seq<string>, instant: Instant)
    requires |uuids| >= |store.deployments| && Upgrade(store, uuids, instant).Ok?
    ensures var s := Upgrade(store, uuids, instant).value;
            && Validated(s)
            && store.states <= s.states && store.audits <= s.audits && store.events <= s.events
            && |s.states| - |store.states| == |Targets(store)|
            && |s.audits| - |store.audits| == |Targets(store)|
            && |s.events| - |store.events| == |Targets(store)|
            && Relabelled(store.deployments, s.deployments)
            && (Linked(store.audits) ==> Linked(s.audits))
  {
    hide InitializeAll;
    hide Missing;
    hide SupportValid;
    hide DeploymentProven;
    hide StatesOf;
    hide Linked;
    hide NoOrphans;
    hide Relabelled;
    MissingFewer(store, store.deployments);
    var at := TargetsSeparate(store);
    TargetsIdentify(store, at);
    Deployments(store, Targets(store), uuids, instant);
    AppendsOnly(store, Targets(store), uuids, instant);
    if Linked(store.audits) { LinkedAll(store, Targets(store), uuids, instant); }
  }

  // ---- where numbering restarts below the expiry mark ----

  // One deployment without a state, in a workspace that retains no event.
  function Bare(d: Deployment, mark: int): Store {
    Store([d], [], [], [], map[], map[d.workspace := Watermark(mark, mark)])
  }

  // Nothing else is wrong with such a store, and the baseline can be written, but the
  // upgrade is blocked as soon as the mark exceeds one. With a mark of one it succeeds.
  lemma RestartedNumberingBlocks(d: Deployment, mark: int, uuid: string, instant: Instant)
    requires Classifiable(d) && Uuid4(uuid)
    ensures var store := Bare(d, mark);
            && Authority(store.deployments) && StatesUnambiguous(store) && SupportValid(store, d.workspace)
            && Initialize(store, [uuid], instant).Ok?
            && (Upgrade(store, [uuid], instant).Ok? <==> mark <= 1)
  {
    var store := Bare(d, mark);
    assert store.deployments[0] == d && |store.deployments| == 1;
    BareState(d, mark);
    hide SupportValid;
    hide RetentionReady;
    hide StatesOf;
    hide Classifiable;
    hide DeploymentProven;
    FilterOne(d);
    assert Missing(store, store.deployments) == [d];
    assert Uninitialized(store, d) <==> mark <= 1;
    assert DeploymentReady(store, d) <==> mark <= 1;
    assert Fresh(store, [uuid]) && Numbered(store);
    UpgradeExactly(store, [uuid], instant);
    BareInitialized(d, mark, uuid, instant);
  }

  lemma FilterOne<T>(x: T)
    ensures forall p: T -> bool :: Filter([x], p) == if p(x) then [x] else []
  {
    assert [x][..0] == [];
  }

  lemma BareState(d: Deployment, mark: int)
    ensures var store := Bare(d, mark);
            && StatesOf(store, d) == [] && SupportValid(store, d.workspace)
            && StatesUnambiguous(store)
            && Filter(store.audits, BaselineAuditOf(d.workspace, d.paper)) == []
            && (RetentionReady(store, d.workspace) <==> mark <= 1)
  {
  }

  lemma BareInitialized(d: Deployment, mark: int, uuid: string, instant: Instant)
    requires Classifiable(d)
    ensures InitializeAll(Bare(d, mark), [d], [uuid], instant).Ok?
  {
    hide InsertBaseline;
    hide DisableIn;
    BareState(d, mark);
    hide SupportValid;
    var store := Bare(d, mark);
    assert [d][..0] == [];
    assert InitializeAll(store, [d][..0], [uuid], instant) == Ok(store);
  }
}
