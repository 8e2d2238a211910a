// The tables the paper-scheduler migration reads and writes, and the validator
// that decides whether every deployment has one proven baseline.
module SchedulerStore {
  import opened Wrappers
  import opened Filters
  import opened Durations

  type Instant = int

  datatype Deployment = Deployment(workspace: string, id: string, paper: string, status: string, revision: int)

  datatype SchedulerState = SchedulerState(
    workspace: string,
    deployment: string,
    status: string,
    suppressedSince: Option<Instant>,
    resumeWatermark: Option<Instant>,
    revision: int
  )

  // A JSON timestamp: absent, readable, or neither.
  datatype Stamp = NoStamp | At(instant: Instant) | Garbled

  // A closed JSON object with two members (an actor is its type and its id), or
  // anything else.
  datatype Pair = Pair(first: string, second: string) | NotAPair

  datatype Evidence = Evidence(
    transitionId: string,
    workspace: string,
    paper: string,
    fromState: Option<string>,
    toState: string,
    effective: Stamp,
    suppressedSince: Stamp,
    resumeWatermark: Stamp,
    initialization: Stamp,
    revision: int,
    reason: string,
    actor: Pair,
    system: Pair,
    build: Pair
  )

  datatype Summary = BaselineSummary(evidence: Evidence) | OtherSummary

  // SHA-256 over the canonical JSON of an audit row is modelled as the row itself;
  // hashes written by other components are plain text.
  datatype Digest = Sha256(content: AuditContent) | Text(text: string)

  datatype AuditContent = AuditContent(
    workspace: string,
    sequence: int,
    action: string,
    objectType: string,
    objectId: string,
    objectRevision: int,
    summary: Summary,
    hasDetailArtifact: bool,
    previous: Option<Digest>,
    occurredAt: Instant
  )

  datatype AuditEvent = AuditEvent(content: AuditContent, hash: Digest)

  datatype DomainEvent = DomainEvent(
    workspace: string,
    sequence: int,
    eventId: string,
    eventType: string,
    objectType: string,
    objectId: string,
    payloadStatus: Option<string>,
    actor: Option<string>,
    objectVersion: Option<int>,
    objectRevision: Option<int>,
    revision: Option<int>,
    schemaVersion: int,
    occurredAt: Stamp,
    expiresAt: Stamp
  )

  datatype ChainHead = ChainHead(hash: Option<Digest>, revision: int)

  datatype Watermark = Watermark(last: int, expiredThrough: int)

  datatype Store = Store(
    deployments: seq<Deployment>,
    states: seq<SchedulerState>,
    audits: seq<AuditEvent>,
    events: seq<DomainEvent>,
    heads: map<string, ChainHead>,
    watermarks: map<string, Watermark>
  )

  const INITIALIZED := "SCHEDULER_STATE_INITIALIZED_NO_HISTORY"

  // ---- legacy classification ----

  function LegacyTarget(status: string): Option<string> {
    match status
    case "ACTIVE" => Some("ACTIVE")
    case "PAUSED" => Some("PAUSED")
    case "STOPPED" => Some("DISABLED")
    case "PENDING" => Some("DISABLED")
    case "FAILED" => Some("DISABLED")
    case "DISABLED" => Some("DISABLED")
    case _ => None
  }

  predicate SchedulerStatus(status: string) {
    status == "ACTIVE" || status == "PAUSED" || status == "DISABLED"
  }

  predicate Classifiable(d: Deployment) {
    LegacyTarget(d.status).Some? && d.id != "" && d.workspace != "" && d.paper != "" && d.revision >= 1
  }

  predicate SameDeployment(d: Deployment, e: Deployment) {
    d.workspace == e.workspace && (d.id == e.id || d.paper == e.paper)
  }

  ghost predicate Authority(deployments: seq<Deployment>) {
    && (forall i :: 0 <= i < |deployments| ==> Classifiable(deployments[i]))
    && (forall i, j :: 0 <= i < j < |deployments| ==> !SameDeployment(deployments[i], deployments[j]))
  }

  // ---- public identifiers ----

  predicate Hex(c: char) {
    '0' <= c <= '9' || 'a' <= c <= 'f'
  }

  predicate Crockford(c: char) {
    '0' <= c <= '9' || ('A' <= c <= 'Z' && c != 'I' && c != 'L' && c != 'O' && c != 'U')
  }

  predicate Uuid4(s: string) {
    |s| == 36 &&
    forall i :: 0 <= i < 36 ==>
      if i == 8 || i == 13 || i == 18 || i == 23 then s[i] == '-'
      else if i == 14 then s[i] == '4'
      else if i == 19 then s[i] == '8' || s[i] == '9' || s[i] == 'a' || s[i] == 'b'
      else Hex(s[i])
  }

  predicate Ulid(s: string) {
    |s| == 26 && '0' <= s[0] <= '7' && forall i :: 0 <= i < 26 ==> Crockford(s[i])
  }

  predicate EventId(s: string) {
    |s| >= 4 && s[..4] == "EVT-" && (Ulid(s[4..]) || Uuid4(s[4..]))
  }

  // ---- selections ----

  function StateOf(workspace: string, id: string): SchedulerState -> bool {
    (s: SchedulerState) => s.workspace == workspace && s.deployment == id
  }

  function BaselineAuditOf(workspace: string, paper: string): AuditEvent -> bool {
    (a: AuditEvent) =>
      && a.content.workspace == workspace && a.content.objectType == "paper" && a.content.objectId == paper
      && a.content.action == INITIALIZED && !a.content.hasDetailArtifact
  }

  function UpdateEventOf(workspace: string, paper: string, id: string): DomainEvent -> bool {
    (e: DomainEvent) =>
      && e.workspace == workspace && e.eventId == id && e.eventType == "paper.updated"
      && e.objectType == "paper" && e.objectId == paper
  }

  // The row of a workspace with the highest sequence, which is unique per workspace.
  function TopAudit(audits: seq<AuditEvent>, workspace: string): Option<AuditEvent> {
    if audits == [] then None
    else
      var top, last := TopAudit(audits[..|audits| - 1], workspace), audits[|audits| - 1];
      if last.content.workspace == workspace && (top.None? || last.content.sequence > top.value.content.sequence)
      then Some(last) else top
  }

  function TopEvent(events: seq<DomainEvent>, workspace: string): Option<DomainEvent> {
    if events == [] then None
    else
      var top, last := TopEvent(events[..|events| - 1], workspace), events[|events| - 1];
      if last.workspace == workspace && (top.None? || last.sequence > top.value.sequence)
      then Some(last) else top
  }

  // ---- the validator ----

  predicate Closed(pair: Pair) {
    pair.Pair? && pair.first != "" && pair.second != ""
  }

  predicate EvidenceValid(e: Evidence, d: Deployment) {
    && EventId(e.transitionId)
    && e.workspace == d.workspace
    && e.paper == d.paper
    && e.fromState.None?
    && SchedulerStatus(e.toState)
    && e.effective.At?
    && e.effective == e.initialization == e.resumeWatermark
    && (if e.toState == "ACTIVE" then e.suppressedSince.NoStamp? else e.suppressedSince == e.effective)
    && e.revision >= 1
    && e.reason == INITIALIZED
    && Closed(e.actor) && Closed(e.system) && Closed(e.build)
  }

  predicate EventMatches(event: DomainEvent, e: Evidence)
    requires e.actor.Pair? && e.initialization.At?
  {
    && event.payloadStatus == Some(e.toState)
    && event.actor == Some(e.actor.second)
    && event.objectVersion.None?
    && event.objectRevision.Some? && event.objectRevision.value >= 1
    && event.revision == event.objectRevision
    && event.schemaVersion == 1
    && event.occurredAt == e.initialization
    && event.expiresAt == At(e.initialization.instant + WEEK)
  }

  predicate Expired(watermarks: map<string, Watermark>, workspace: string, sequence: int) {
    workspace in watermarks && watermarks[workspace].expiredThrough >= sequence
  }

  predicate EvidenceProven(store: Store, d: Deployment) {
    var audits := Filter(store.audits, BaselineAuditOf(d.workspace, d.paper));
    && |audits| == 1
    && audits[0].content.summary.BaselineSummary?
    && var e := audits[0].content.summary.evidence;
       EvidenceValid(e, d) &&
       var events := Filter(store.events, UpdateEventOf(d.workspace, d.paper, e.transitionId));
       if |events| == 0 then Expired(store.watermarks, d.workspace, audits[0].content.sequence)
       else |events| == 1 && EventMatches(events[0], e)
  }

  predicate BaselineValid(s: SchedulerState, d: Deployment) {
    && LegacyTarget(d.status) == Some(s.status)
    && s.revision >= 1
    && s.resumeWatermark.Some?
    && (s.status == "ACTIVE" <==> s.suppressedSince.None?)
  }

  predicate SupportValid(store: Store, workspace: string) {
    HeadMatches(store, TopAudit(store.audits, workspace), workspace) &&
    WatermarkMatches(store, TopEvent(store.events, workspace), workspace)
  }

  predicate HeadMatches(store: Store, top: Option<AuditEvent>, workspace: string) {
    if top.None? then workspace !in store.heads
    else
      && workspace in store.heads
      && store.heads[workspace].hash == Some(top.value.hash)
      && store.heads[workspace].revision >= 1
  }

  predicate WatermarkMatches(store: Store, top: Option<DomainEvent>, workspace: string) {
    if top.None? then
      workspace in store.watermarks ==>
        store.watermarks[workspace].last == store.watermarks[workspace].expiredThrough
    else
      && workspace in store.watermarks
      && store.watermarks[workspace].last == top.value.sequence
      && store.watermarks[workspace].expiredThrough <= store.watermarks[workspace].last
  }

  predicate Belongs(state: SchedulerState, deployments: seq<Deployment>) {
    exists j :: 0 <= j < |deployments| &&
      state.workspace == deployments[j].workspace && state.deployment == deployments[j].id
  }

  predicate NoOrphans(store: Store) {
    forall i :: 0 <= i < |store.states| ==> Belongs(store.states[i], store.deployments)
  }

  function StatesOf(store: Store, d: Deployment): seq<SchedulerState> {
    Filter(store.states, StateOf(d.workspace, d.id))
  }

  predicate DeploymentProven(store: Store, d: Deployment) {
    && |StatesOf(store, d)| == 1
    && BaselineValid(StatesOf(store, d)[0], d)
    && EvidenceProven(store, d)
  }

  ghost predicate Validated(store: Store) {
    && Authority(store.deployments)
    && NoOrphans(store)
    && (forall i :: 0 <= i < |store.deployments| ==>
          DeploymentProven(store, store.deployments[i]) && SupportValid(store, store.deployments[i].workspace))
  }
}
