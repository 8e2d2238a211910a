// What the migration does to the tables: one baseline per deployment without a
// scheduler state, then the validator, all or nothing.
module SchedulerInit {
  import opened Wrappers
  import opened Filters
  import opened Durations
  import opened SchedulerStore

  datatype Blocked = Blocked

  const ACTOR := "alembic:0017"

  function NextAuditSequence(store: Store, workspace: string): int {
    match TopAudit(store.audits, workspace)
    case None => 1
    case Some(a) => a.content.sequence + 1
  }

  function NextEventSequence(store: Store, workspace: string): int {
    match TopEvent(store.events, workspace)
    case None => 1
    case Some(e) => e.sequence + 1
  }

  function PreviousHash(store: Store, workspace: string): Option<Digest> {
    match TopAudit(store.audits, workspace)
    case None => None
    case Some(a) => Some(a.hash)
  }

  function NewState(d: Deployment, target: string, instant: Instant): SchedulerState {
    SchedulerState(d.workspace, d.id, target,
                   if target != "ACTIVE" then Some(instant) else None, Some(instant), d.revision)
  }

  function NewEvidence(d: Deployment, target: string, uuid: string, instant: Instant): Evidence {
    Evidence(
      "EVT-" + uuid, d.workspace, d.paper, None, target,
      At(instant), if target != "ACTIVE" then At(instant) else NoStamp, At(instant), At(instant),
      d.revision, INITIALIZED,
      Pair("SYSTEM", ACTOR), Pair("alembic", "0017"), Pair("migration-0017", "alembic-0017"))
  }

  function NewAudit(store: Store, d: Deployment, target: string, uuid: string, instant: Instant): AuditEvent {
    var content := AuditContent(
      d.workspace, NextAuditSequence(store, d.workspace), INITIALIZED, "paper", d.paper, d.revision,
      BaselineSummary(NewEvidence(d, target, uuid, instant)), false, PreviousHash(store, d.workspace), instant);
    AuditEvent(content, Sha256(content))
  }

  function NewEvent(store: Store, d: Deployment, target: string, uuid: string, instant: Instant): DomainEvent {
    DomainEvent(
      d.workspace, NextEventSequence(store, d.workspace), "EVT-" + uuid, "paper.updated", "paper", d.paper,
      Some(target), Some(ACTOR), None, Some(d.revision), Some(d.revision), 1,
      At(instant), At(instant + WEEK))
  }

  function NewHead(store: Store, workspace: string, hash: Digest): ChainHead {
    ChainHead(Some(hash), if workspace in store.heads then store.heads[workspace].revision + 1 else 1)
  }

  function NewWatermark(store: Store, workspace: string, sequence: int): Watermark {
    Watermark(sequence, if workspace in store.watermarks then store.watermarks[workspace].expiredThrough else 0)
  }

  // A stopped deployment is disabled before its baseline is written.
  function Disabled(d: Deployment): Deployment {
    if d.status == "STOPPED" then d.(status := "DISABLED") else d
  }

  function DisableIn(deployments: seq<Deployment>, d: Deployment): seq<Deployment> {
    seq(|deployments|, i requires 0 <= i < |deployments| =>
      if d.status == "STOPPED" && deployments[i].id == d.id && deployments[i].workspace == d.workspace
      then deployments[i].(status := "DISABLED") else deployments[i])
  }

  function InsertBaseline(store: Store, d: Deployment, target: string, uuid: string, instant: Instant): Store {
    var audit := NewAudit(store, d, target, uuid, instant);
    var event := NewEvent(store, d, target, uuid, instant);
    store.(
      states := store.states + [NewState(d, target, instant)],
      audits := store.audits + [audit],
      events := store.events + [event],
      heads := store.heads[d.workspace := NewHead(store, d.workspace, audit.hash)],
      watermarks := store.watermarks[d.workspace := NewWatermark(store, d.workspace, event.sequence)])
  }

  // One missing deployment.
  function InitializeOne(store: Store, d: Deployment, uuid: string, instant: Instant): Result<Store, Blocked> {
    if !SupportValid(store, d.workspace) || LegacyTarget(d.status).None? then Err(Blocked)
    else
      Ok(InsertBaseline(store.(deployments := DisableIn(store.deployments, d)),
                        Disabled(d), LegacyTarget(d.status).value, uuid, instant))
  }

  function Missing(store: Store, deployments: seq<Deployment>): seq<Deployment> {
    Filter(deployments, (d: Deployment) => StatesOf(store, d) == [])
  }

  function InitializeAll(store: Store, targets: seq<Deployment>, uuids: seq<string>,
                         instant: Instant): Result<Store, Blocked>
    requires |uuids| >= |targets|
  {
    if targets == [] then Ok(store)
    else
      var n := |targets| - 1;
      match InitializeAll(store, targets[..n], uuids, instant)
      case Err(e) => Err(e)
      case Ok(s) => InitializeOne(s, targets[n], uuids[n], instant)
  }

  predicate StatesUnambiguous(store: Store) {
    NoOrphans(store) && forall i :: 0 <= i < |store.deployments| ==> |StatesOf(store, store.deployments[i])| <= 1
  }

  lemma MissingFewer(store: Store, deployments: seq<Deployment>)
    ensures |Missing(store, deployments)| <= |deployments|
  {
    FilterLength(deployments, (d: Deployment) => StatesOf(store, d) == []);
  }

  ghost function Initialize(store: Store, uuids: seq<string>, instant: Instant): Result<Store, Blocked>
    requires |uuids| >= |store.deployments|
  {
    MissingFewer(store, store.deployments);
    if Authority(store.deployments) && StatesUnambiguous(store)
    then InitializeAll(store, Missing(store, store.deployments), uuids, instant)
    else Err(Blocked)
  }

  // The whole upgrade: initialize, validate, and keep the result only if both succeed.
  ghost function Upgrade(store: Store, uuids: seq<string>, instant: Instant): Result<Store, Blocked>
    requires |uuids| >= |store.deployments|
  {
    match Initialize(store, uuids, instant)
    case Err(e) => Err(e)
    case Ok(s) => if Validated(s) then Ok(s) else Err(Blocked)
  }
}
