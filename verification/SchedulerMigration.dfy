// The migration as it runs: row by row over the tables, inside one transaction.
module SchedulerMigration {
  import opened Wrappers
  import opened Filters
  import opened SchedulerStore
  import opened SchedulerInit
  import opened SchedulerProof
  import opened SchedulerTheorems

  type PairKey = (string, string)

  function StateKey(s: SchedulerState): PairKey { (s.workspace, s.deployment) }

  function DeploymentKey(d: Deployment): PairKey { (d.workspace, d.id) }

  function Group(grouped: map<PairKey, seq<SchedulerState>>, key: PairKey): seq<SchedulerState> {
    if key in grouped then grouped[key] else []
  }

  // Every group holds the states of its deployment, in table order.
  ghost predicate Groups(grouped: map<PairKey, seq<SchedulerState>>, states: seq<SchedulerState>) {
    forall w, id :: Filter(states, StateOf(w, id)) == Group(grouped, (w, id))
  }

  lemma GroupsAppend(grouped: map<PairKey, seq<SchedulerState>>, states: seq<SchedulerState>, row: SchedulerState)
    requires Groups(grouped, states)
    ensures Groups(grouped[StateKey(row) := Group(grouped, StateKey(row)) + [row]], states + [row])
  {
  }

  class Database {
    var deployments: seq<Deployment>
    var states: seq<SchedulerState>
    var audits: seq<AuditEvent>
    var events: seq<DomainEvent>
    var heads: map<string, ChainHead>
    var watermarks: map<string, Watermark>

    constructor (store: Store)
      ensures Snapshot() == store
    {
      deployments, states, audits := store.deployments, store.states, store.audits;
      events, heads, watermarks := store.events, store.heads, store.watermarks;
    }

    function Snapshot(): Store
      reads this
    {
      Store(deployments, states, audits, events, heads, watermarks)
    }

    method Rollback(store: Store)
      modifies this
      ensures Snapshot() == store
    {
      deployments, states, audits := store.deployments, store.states, store.audits;
      events, heads, watermarks := store.events, store.heads, store.watermarks;
    }

    // ---- checks ----

    method ValidateDeploymentAuthority() returns (ok: bool)
      ensures ok <==> Authority(deployments)
    {
      hide Classifiable;
      var seenIdentity: set<PairKey>, seenLocator: set<PairKey> := {}, {};
      for k := 0 to |deployments|
        invariant Authority(deployments[..k])
        invariant seenIdentity == set i | 0 <= i < k :: (deployments[i].workspace, deployments[i].id)
        invariant seenLocator == set i | 0 <= i < k :: (deployments[i].workspace, deployments[i].paper)
      {
        var d := deployments[k];
        var identity, locator := (d.workspace, d.id), (d.workspace, d.paper);
        if !Classifiable(d) { return false; }
        if identity in seenIdentity || locator in seenLocator {
          ghost var i :| 0 <= i < k && SameDeployment(deployments[i], d);
          return false;
        }
        forall i | 0 <= i < k
          ensures !SameDeployment(deployments[i], d)
        {
          assert (deployments[i].workspace, deployments[i].id) in seenIdentity;
          assert (deployments[i].workspace, deployments[i].paper) in seenLocator;
        }
        seenIdentity, seenLocator := seenIdentity + {identity}, seenLocator + {locator};
      }
      assert deployments[..|deployments|] == deployments;
      return true;
    }

    method GroupStates() returns (grouped: map<PairKey, seq<SchedulerState>>)
      ensures grouped.Keys == set i | 0 <= i < |states| :: StateKey(states[i])
      ensures Groups(grouped, states)
    {
      hide Groups;
      grouped := map[];
      assert Groups(grouped, states[..0]) by { NoGroups(); }
      for k := 0 to |states|
        invariant grouped.Keys == set i | 0 <= i < k :: StateKey(states[i])
        invariant Groups(grouped, states[..k])
      {
        var row := states[k];
        GroupsAppend(grouped, states[..k], row);
        assert states[..k] + [row] == states[..k + 1];
        grouped := grouped[StateKey(row) := Group(grouped, StateKey(row)) + [row]];
      }
      assert states[..|states|] == states;
    }

    lemma NoGroups()
      ensures Groups(map[], [])
    {
    }

    method DeploymentPairs() returns (pairs: set<PairKey>)
      ensures pairs == set i | 0 <= i < |deployments| :: DeploymentKey(deployments[i])
    {
      pairs := {};
      for k := 0 to |deployments|
        invariant pairs == set i | 0 <= i < k :: DeploymentKey(deployments[i])
      {
        pairs := pairs + {DeploymentKey(deployments[k])};
      }
    }

    lemma OrphansByKey()
      ensures (set i | 0 <= i < |states| :: StateKey(states[i])) <=
              (set i | 0 <= i < |deployments| :: DeploymentKey(deployments[i]))
              <==> NoOrphans(Snapshot())
    {
      var keys := set i | 0 <= i < |states| :: StateKey(states[i]);
      var pairs := set i | 0 <= i < |deployments| :: DeploymentKey(deployments[i]);
      if keys <= pairs {
        forall i | 0 <= i < |states|
          ensures Belongs(states[i], deployments)
        {
          assert StateKey(states[i]) in keys;
          var j :| 0 <= j < |deployments| && DeploymentKey(deployments[j]) == StateKey(states[i]);
        }
      }
      if NoOrphans(Snapshot()) {
        forall key | key in keys
          ensures key in pairs
        {
          var i :| 0 <= i < |states| && StateKey(states[i]) == key;
          assert Belongs(states[i], deployments);
          var j :| 0 <= j < |deployments| && states[i].workspace == deployments[j].workspace &&
            states[i].deployment == deployments[j].id;
          assert DeploymentKey(deployments[j]) == key;
        }
      }
    }

    method ValidateSupportRows(workspace: string) returns (ok: bool)
      ensures ok == SupportValid(Snapshot(), workspace)
    {
      var audit, event := TopAudit(audits, workspace), TopEvent(events, workspace);
      var headValid, watermarkValid;
      if audit.None? {
        headValid := workspace !in heads;
      } else {
        headValid := workspace in heads && heads[workspace].hash == Some(audit.value.hash) &&
          heads[workspace].revision >= 1;
      }
      if event.None? {
        watermarkValid := workspace !in watermarks ||
                          watermarks[workspace].last == watermarks[workspace].expiredThrough;
      } else {
        watermarkValid := workspace in watermarks && watermarks[workspace].last == event.value.sequence &&
          watermarks[workspace].expiredThrough <= watermarks[workspace].last;
      }
      return headValid && watermarkValid;
    }

    method ValidateEvidence(d: Deployment) returns (ok: bool)
      ensures ok == EvidenceProven(Snapshot(), d)
    {
      hide EvidenceValid;
      hide EventMatches;
      hide Filter;
      var rows := Filter(audits, BaselineAuditOf(d.workspace, d.paper));
      if |rows| != 1 { return false; }
      if !rows[0].content.summary.BaselineSummary? { return false; }
      var evidence := rows[0].content.summary.evidence;
      if !EvidenceValid(evidence, d) { return false; }
      var published := Filter(events, UpdateEventOf(d.workspace, d.paper, evidence.transitionId));
      if |published| == 0 && d.workspace in watermarks &&
         watermarks[d.workspace].expiredThrough >= rows[0].content.sequence {
        return true;
      }
      if |published| != 1 { return false; }
      assert evidence.actor.Pair? && evidence.initialization.At? by { EvidenceParts(evidence, d); }
      return EventMatches(published[0], evidence);
    }

    lemma EvidenceParts(e: Evidence, d: Deployment)
      requires EvidenceValid(e, d)
      ensures e.actor.Pair? && e.initialization.At?
    {
    }

    method ValidateBaselines() returns (ok: bool)
      ensures ok <==> Validated(Snapshot())
    {
      hide Authority;
      hide EvidenceProven;
      hide SupportValid;
      hide BaselineValid;
      hide NoOrphans;
      hide Filter;
      var authority := ValidateDeploymentAuthority();
      if !authority { return false; }
      var pairs := DeploymentPairs();
      var grouped := GroupStates();
      OrphansByKey();
      if !(grouped.Keys <= pairs) { return false; }
      for k := 0 to |deployments|
        invariant forall i :: 0 <= i < k ==> DeploymentProven(Snapshot(), deployments[i])
      {
        var d := deployments[k];
        assert StatesOf(Snapshot(), d) == Group(grouped, (d.workspace, d.id));
        if DeploymentKey(d) !in grouped || |grouped[DeploymentKey(d)]| != 1 { return false; }
        if !BaselineValid(grouped[DeploymentKey(d)][0], d) { return false; }
        var proven := ValidateEvidence(d);
        if !proven { return false; }
      }
      for k := 0 to |deployments|
        invariant forall i :: 0 <= i < k ==> SupportValid(Snapshot(), deployments[i].workspace)
      {
        var support := ValidateSupportRows(deployments[k].workspace);
        if !support { return false; }
      }
      return true;
    }

    // ---- writing ----

    method WriteBaseline(d: Deployment, target: string, uuid: string, instant: Instant)
      modifies this`states, this`audits, this`events, this`heads, this`watermarks
      ensures Snapshot() == InsertBaseline(old(Snapshot()), d, target, uuid, instant)
    {
      ghost var before := Snapshot();
      states := states + [NewState(d, target, instant)];
      var audit := NewAudit(Snapshot(), d, target, uuid, instant);
      assert audit == NewAudit(before, d, target, uuid, instant);
      audits := audits + [audit];
      var event := NewEvent(Snapshot(), d, target, uuid, instant);
      assert event == NewEvent(before, d, target, uuid, instant);
      events := events + [event];
      if d.workspace !in heads {
        heads := heads[d.workspace := ChainHead(Some(audit.hash), 1)];
      } else {
        heads := heads[d.workspace := ChainHead(Some(audit.hash), heads[d.workspace].revision + 1)];
      }
      if d.workspace !in watermarks {
        watermarks := watermarks[d.workspace := Watermark(event.sequence, 0)];
      } else {
        watermarks := watermarks[d.workspace := watermarks[d.workspace].(last := event.sequence)];
      }
    }

    method CheckStates() returns (ok: bool, grouped: map<PairKey, seq<SchedulerState>>)
      ensures ok <==> Authority(deployments) && StatesUnambiguous(Snapshot())
      ensures ok ==> Groups(grouped, states)
    {
      hide Authority;
      hide NoOrphans;
      hide Filter;
      grouped := map[];
      var authority := ValidateDeploymentAuthority();
      if !authority { return false, grouped; }
      var pairs := DeploymentPairs();
      grouped := GroupStates();
      OrphansByKey();
      if !(grouped.Keys <= pairs) { return false, grouped; }
      for k := 0 to |deployments|
        invariant forall i :: 0 <= i < k ==> |StatesOf(Snapshot(), deployments[i])| <= 1
      {
        var d := deployments[k];
        assert StatesOf(Snapshot(), d) == Group(grouped, (d.workspace, d.id));
        if |Group(grouped, DeploymentKey(d))| > 1 { return false, grouped; }
      }
      return true, grouped;
    }

    method WriteAll(targets: seq<Deployment>, uuids: seq<string>, instant: Instant) returns (ok: bool)
      requires |uuids| >= |targets|
      modifies this
      ensures match InitializeAll(old(Snapshot()), targets, uuids, instant)
              case Ok(s) => ok && Snapshot() == s
              case Err(_) => !ok
    {
      hide SupportValid;
      hide InsertBaseline;
      hide DisableIn;
      hide Disabled;
      hide LegacyTarget;
      ghost var store := Snapshot();
      for k := 0 to |targets|
        invariant InitializeAll(store, targets[..k], uuids, instant) == Ok(Snapshot())
      {
        var d := targets[k];
        assert targets[..k + 1][..k] == targets[..k];
        var support := ValidateSupportRows(d.workspace);
        var target := LegacyTarget(d.status);
        if !support || target.None? {
          StaysBlocked(store, targets, uuids, instant, k + 1);
          return false;
        }
        deployments := DisableIn(deployments, d);
        WriteBaseline(Disabled(d), target.value, uuids[k], instant);
      }
      assert targets[..|targets|] == targets;
      return true;
    }

    method InitializeMissingBaselines(uuids: seq<string>, instant: Instant) returns (ok: bool)
      requires |uuids| >= |deployments|
      modifies this
      ensures match Initialize(old(Snapshot()), uuids, instant)
              case Ok(s) => ok && Snapshot() == s
              case Err(_) => !ok
    {
      hide Authority;
      hide StatesUnambiguous;
      hide Missing;
      hide InitializeAll;
      MissingFewer(Snapshot(), deployments);
      var clear, grouped := CheckStates();
      if !clear { return false; }
      var targets := CollectTargets(grouped);
      ok := WriteAll(targets, uuids, instant);
    }

    method CollectTargets(grouped: map<PairKey, seq<SchedulerState>>) returns (targets: seq<Deployment>)
      requires Groups(grouped, states)
      ensures targets == Missing(Snapshot(), deployments)
    {
      hide StateOf;
      targets := [];
      for k := 0 to |deployments|
        invariant targets == Missing(Snapshot(), deployments[..k])
      {
        var d := deployments[k];
        assert deployments[..k + 1][..k] == deployments[..k];
        assert StatesOf(Snapshot(), d) == Group(grouped, (d.workspace, d.id));
        if Group(grouped, DeploymentKey(d)) == [] { targets := targets + [d]; }
      }
      assert deployments[..|deployments|] == deployments;
    }

    static lemma {:induction false} StaysBlocked(store: Store, targets: seq<Deployment>, uuids: seq<string>,
                                                 instant: Instant, n: nat)
      requires |uuids| >= |targets| >= n && InitializeAll(store, targets[..n], uuids, instant).Err?
      ensures InitializeAll(store, targets, uuids, instant).Err?
      decreases |targets|
    {
      if n < |targets| {
        assert targets[..|targets| - 1][..n] == targets[..n];
        StaysBlocked(store, targets[..|targets| - 1], uuids, instant, n);
      } else {
        assert targets[..n] == targets;
      }
    }

    // Initialize, validate, commit; on any block, roll everything back.
    method RunUpgrade(uuids: seq<string>, instant: Instant) returns (ok: bool)
      requires |uuids| >= |deployments|
      modifies this
      ensures match Upgrade(old(Snapshot()), uuids, instant)
              case Ok(s) => ok && Snapshot() == s
              case Err(_) => !ok && Snapshot() == old(Snapshot())
      ensures ok ==> Validated(Snapshot())
      ensures Numbered(old(Snapshot())) && Fresh(old(Snapshot()), uuids) ==> (ok <==> Ready(old(Snapshot())))
    {
      hide Initialize;
      hide Validated;
      hide Ready;
      var before := Snapshot();
      if Numbered(before) && Fresh(before, uuids) { UpgradeExactly(before, uuids, instant); }
      ok := InitializeMissingBaselines(uuids, instant);
      if ok { ok := ValidateBaselines(); }
      if !ok { Rollback(before); }
    }
  }
}
