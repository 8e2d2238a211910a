// The row guards that PostgreSQL puts on validations, approvals, holdout exposures and
// strategy versions after migration 0016, as predicates over one statement on one row,
// and what they keep over arbitrary statements. A refused statement changes nothing.
// No foreign key refers to validations in that schema, so an opened or exposed
// validation can be deleted or given another id.
module EvidenceGuards {
  import opened Wrappers

  datatype Holdout = LOCKED | APPROVAL_PENDING | UNLOCKED | RUNNING | EXPOSED | FAILED

  datatype Validation = Validation(id: string, strategy: string, holdout: Holdout, exposures: int, rest: string)

  datatype Status = PENDING | APPROVED | OTHER(name: string)

  datatype Approval = Approval(validation: Option<string>, status: Status, rest: string)

  datatype Exposure = Exposure(validation: string, strategy: string, approval: string, job: string, rest: string)

  datatype Lifecycle = CANDIDATE | FROZEN | VALIDATING | VALIDATED | REJECTED | PAPER | RETIRED

  // The columns of a strategy version that make up its frozen specification.
  datatype Identity = Identity(strategy: string, version: int, spec: string, frozenAt: Option<int>, workspace: string)

  // rest is every column the guard does not look at, such as the signals.
  datatype Version = Version(id: string, identity: Identity, state: Lifecycle, detail: string, rest: string)

  // Each table maps a physical row to its columns.
  datatype Tables = Tables(
    validations: map<int, Validation>,
    approvals: map<int, Approval>,
    exposures: map<int, Exposure>,
    versions: map<int, Version>
  )

  // guarded says whether the statement names holdout_state or exposure_count, which is
  // when the holdout guard fires.
  datatype Statement =
    | InsertValidation(row: int, validation: Validation)
    | UpdateValidation(row: int, validation: Validation, guarded: bool)
    | DeleteValidation(row: int)
    | InsertApproval(row: int, approval: Approval)
    | UpdateApproval(row: int, approval: Approval)
    | DeleteApproval(row: int)
    | InsertExposure(row: int, exposure: Exposure)
    | UpdateExposure(row: int, exposure: Exposure)
    | DeleteExposure(row: int)
    | InsertVersion(row: int, version: Version)
    | UpdateVersion(row: int, version: Version)
    | DeleteVersion(row: int)

  // ---- keys ----

  predicate UniqueId(t: Tables, row: int, id: string) {
    forall v :: v in t.validations && v != row ==> t.validations[v].id != id
  }

  // validation_id, approval_id and job_id are unique among exposures.
  predicate UniqueExposure(t: Tables, exposure: Exposure) {
    forall e :: e in t.exposures ==>
      && t.exposures[e].validation != exposure.validation
      && t.exposures[e].approval != exposure.approval
      && t.exposures[e].job != exposure.job
  }

  // ---- the guards ----

  predicate Approved(t: Tables, id: string) {
    exists a :: a in t.approvals && t.approvals[a].validation == Some(id) && t.approvals[a].status == APPROVED
  }

  predicate Requested(t: Tables, id: string) {
    exists a :: a in t.approvals && t.approvals[a].validation == Some(id) && t.approvals[a].status == PENDING
  }

  predicate Exposed(t: Tables, id: string, strategy: string) {
    exists e :: e in t.exposures && t.exposures[e].validation == id && t.exposures[e].strategy == strategy
  }

  predicate HoldoutStep(from: Holdout, to: Holdout) {
    || to == from
    || (from == LOCKED && to == APPROVAL_PENDING)
    || (from == APPROVAL_PENDING && (to == LOCKED || to == UNLOCKED))
    || (from == UNLOCKED && to == RUNNING)
    || (from == RUNNING && to == EXPOSED)
    || to == FAILED
  }

  function ExposureCount(h: Holdout): int {
    if h == EXPOSED then 1 else 0
  }

  predicate HoldoutGuard(t: Tables, was: Validation, now: Validation) {
    && HoldoutStep(was.holdout, now.holdout)
    && now.exposures == ExposureCount(now.holdout)
    && (now.holdout == APPROVAL_PENDING ==> Requested(t, was.id))
    && (now.holdout == UNLOCKED || now.holdout == RUNNING ==> Approved(t, was.id))
    && (now.holdout == EXPOSED ==> Exposed(t, was.id, was.strategy))
  }

  predicate LifecycleStep(from: Lifecycle, to: Lifecycle) {
    || to == from
    || (from == CANDIDATE && to == FROZEN)
    || (from == FROZEN && to == VALIDATING)
    || (from == VALIDATING && (to == VALIDATED || to == REJECTED))
    || (from == VALIDATED && (to == PAPER || to == RETIRED))
    || (from == PAPER && to == RETIRED)
  }

  predicate VersionGuard(was: Version, now: Version) {
    && (was.state != CANDIDATE ==> now.identity == was.identity)
    && LifecycleStep(was.state, now.state)
    && (was.state != CANDIDATE && now.state == was.state ==> now.detail == was.detail)
  }

  // ---- statements ----

  predicate Admitted(t: Tables, s: Statement) {
    match s
    case InsertValidation(row, v) => row !in t.validations && UniqueId(t, row, v.id)
    case UpdateValidation(row, v, guarded) =>
      && row in t.validations
      && UniqueId(t, row, v.id)
      && var was := t.validations[row];
         (if guarded then HoldoutGuard(t, was, v) else v.holdout == was.holdout && v.exposures == was.exposures)
    case DeleteValidation(row) => row in t.validations
    case InsertApproval(row, _) => row !in t.approvals
    case UpdateApproval(row, _) => row in t.approvals && t.approvals[row].status == PENDING
    case DeleteApproval(row) => row in t.approvals && t.approvals[row].status == PENDING
    case InsertExposure(row, e) => row !in t.exposures && UniqueExposure(t, e)
    case UpdateExposure(_, _) => false
    case DeleteExposure(_) => false
    case InsertVersion(row, _) => row !in t.versions
    case UpdateVersion(row, v) => row in t.versions && VersionGuard(t.versions[row], v)
    case DeleteVersion(row) => row in t.versions && t.versions[row].state == CANDIDATE
  }

  function Apply(t: Tables, s: Statement): Tables {
    if !Admitted(t, s) then t else
      match s
      case InsertValidation(row, v) => t.(validations := t.validations[row := v])
      case UpdateValidation(row, v, _) => t.(validations := t.validations[row := v])
      case DeleteValidation(row) => t.(validations := t.validations - {row})
      case InsertApproval(row, a) => t.(approvals := t.approvals[row := a])
      case UpdateApproval(row, a) => t.(approvals := t.approvals[row := a])
      case DeleteApproval(row) => t.(approvals := t.approvals - {row})
      case InsertExposure(row, e) => t.(exposures := t.exposures[row := e])
      case UpdateExposure(row, e) => t.(exposures := t.exposures[row := e])
      case DeleteExposure(row) => t.(exposures := t.exposures - {row})
      case InsertVersion(row, v) => t.(versions := t.versions[row := v])
      case UpdateVersion(row, v) => t.(versions := t.versions[row := v])
      case DeleteVersion(row) => t.(versions := t.versions - {row})
  }

  function RunOf(t: Tables, statements: seq<Statement>): Tables {
    if statements == [] then t
    else Apply(RunOf(t, statements[..|statements| - 1]), statements[|statements| - 1])
  }

  // ---- holdout evidence ----

  ghost predicate OneExposure(t: Tables, id: string) {
    exists e :: e in t.exposures && t.exposures[e].validation == id &&
      forall o :: o in t.exposures && t.exposures[o].validation == id ==> o == e
  }

  predicate Opened(h: Holdout) {
    h == UNLOCKED || h == RUNNING || h == EXPOSED
  }

  ghost predicate RowEvidence(t: Tables, v: Validation) {
    && (Opened(v.holdout) ==> Approved(t, v.id))
    && (v.holdout == EXPOSED ==> OneExposure(t, v.id))
    && v.exposures == ExposureCount(v.holdout)
  }

  ghost predicate Evidence(t: Tables) {
    forall v :: v in t.validations ==> RowEvidence(t, t.validations[v])
  }

  ghost predicate ExposuresUnique(t: Tables) {
    forall d, e :: d in t.exposures && e in t.exposures ==>
      t.exposures[d].validation == t.exposures[e].validation ==> d == e
  }

  // What only grows: approvals that are no longer pending, and exposures.
  ghost predicate EvidenceKept(t: Tables, after: Tables) {
    && (forall a :: a in t.approvals && t.approvals[a].status != PENDING ==>
          a in after.approvals && after.approvals[a] == t.approvals[a])
    && (forall e :: e in t.exposures ==> e in after.exposures && after.exposures[e] == t.exposures[e])
  }

  lemma ApplyKeepsEvidence(t: Tables, s: Statement)
    requires ExposuresUnique(t)
    ensures EvidenceKept(t, Apply(t, s)) && ExposuresUnique(Apply(t, s))
  {
  }

  lemma RowEvidenceKept(t: Tables, after: Tables, v: Validation)
    requires RowEvidence(t, v) && EvidenceKept(t, after) && ExposuresUnique(after)
    ensures RowEvidence(after, v)
  {
  }

  // What a statement must bring with it, which the caller can look up beforehand: an
  // inserted row its own evidence, and a row that is given another id the evidence
  // under that id.
  ghost predicate Justified(t: Tables, s: Statement) {
    match s
    case InsertValidation(_, v) => RowEvidence(t, v)
    case UpdateValidation(row, v, _) => row in t.validations && v.id != t.validations[row].id ==> RowEvidence(t, v)
    case _ => true
  }

  // An update that keeps the id keeps the row's evidence.
  lemma UpdatedRowEvidence(t: Tables, row: int, v: Validation, guarded: bool)
    requires Evidence(t) && ExposuresUnique(t) && Admitted(t, UpdateValidation(row, v, guarded))
    requires v.id == t.validations[row].id
    ensures RowEvidence(t, v)
  {
    var was := t.validations[row];
    assert RowEvidence(t, was);
    if Opened(v.holdout) {
      assert Opened(was.holdout) || (guarded && v.holdout == UNLOCKED);
      if v.holdout == EXPOSED && was.holdout != EXPOSED {
        var e :| e in t.exposures && t.exposures[e].validation == was.id;
        assert OneExposure(t, was.id);
      }
    }
  }

  // A statement on another table does not disturb the evidence of any row, and one on
  // validations leaves the other tables alone.
  lemma RowEvidenceBack(t: Tables, s: Statement, v: Validation)
    requires s.InsertValidation? || s.UpdateValidation?
    ensures RowEvidence(Apply(t, s), v) <==> RowEvidence(t, v)
  {
    hide Admitted;
  }

  // The exact condition, for every statement: an admitted one keeps the evidence if and
  // only if it is justified. Statements on the other tables and deletions always are.
  lemma StepKeepsEvidenceExactly(t: Tables, s: Statement)
    requires Evidence(t) && ExposuresUnique(t) && Admitted(t, s)
    ensures Evidence(Apply(t, s)) <==> Justified(t, s)
  {
    var after := Apply(t, s);
    ApplyKeepsEvidence(t, s);
    if s.InsertValidation? || s.UpdateValidation? {
      RowEvidenceBack(t, s, s.validation);
      assert after.validations[s.row] == s.validation;
      if s.UpdateValidation? && s.validation.id == t.validations[s.row].id {
        UpdatedRowEvidence(t, s.row, s.validation, s.guarded);
      }
      assert Evidence(after) ==> RowEvidence(after, s.validation);
    }
    if Justified(t, s) {
      hide Admitted;
      forall v | v in after.validations
        ensures RowEvidence(after, after.validations[v])
      {
        if (s.InsertValidation? || s.UpdateValidation?) && s.row == v {
        } else {
          assert v in t.validations && after.validations[v] == t.validations[v];
          RowEvidenceKept(t, after, after.validations[v]);
        }
      }
    }
  }

  // The same for a whole run: the evidence holds after every statement if and only if
  // every admitted statement was justified when it came.
  lemma {:induction false} RunEvidenceExactly(t: Tables, statements: seq<Statement>)
    requires Evidence(t) && ExposuresUnique(t)
    ensures ExposuresUnique(RunOf(t, statements))
    ensures EvidenceThroughout(t, statements) <==>
            forall n :: 0 <= n < |statements| ==> JustifiedAt(t, statements, n)
  {
    hide Apply;
    hide Evidence;
    hide ExposuresUnique;
    hide Admitted;
    hide Justified;
    if statements == [] {
      assert statements[..0] == statements;
    } else {
      var n := |statements| - 1;
      var before := statements[..n];
      RunEvidenceExactly(t, before);
      assert forall k :: 0 <= k <= n ==> before[..k] == statements[..k];
      assert statements[..|statements|] == statements;
      assert forall k :: 0 <= k < n ==> (JustifiedAt(t, before, k) <==> JustifiedAt(t, statements, k));
      assert EvidenceThroughout(t, statements) <==> EvidenceThroughout(t, before) && Evidence(RunOf(t, statements));
      UniqueAfter(RunOf(t, before), statements[n]);
      if EvidenceThroughout(t, before) {
        assert Evidence(RunOf(t, before[..|before|]));
        assert before[..|before|] == before;
        if Admitted(RunOf(t, before), statements[n]) {
          StepKeepsEvidenceExactly(RunOf(t, before), statements[n]);
        } else {
          Refused(RunOf(t, before), statements[n]);
        }
        assert JustifiedAt(t, statements, n) <==> Evidence(RunOf(t, statements));
      }
    }
  }

  ghost predicate EvidenceThroughout(t: Tables, statements: seq<Statement>) {
    forall n :: 0 <= n <= |statements| ==> Evidence(RunOf(t, statements[..n]))
  }

  ghost predicate JustifiedAt(t: Tables, statements: seq<Statement>, n: nat)
    requires n < |statements|
  {
    Admitted(RunOf(t, statements[..n]), statements[n]) ==> Justified(RunOf(t, statements[..n]), statements[n])
  }

  lemma UniqueAfter(t: Tables, s: Statement)
    requires ExposuresUnique(t)
    ensures ExposuresUnique(Apply(t, s))
  {
    ApplyKeepsEvidence(t, s);
  }

  lemma Refused(t: Tables, s: Statement)
    requires !Admitted(t, s)
    ensures Apply(t, s) == t
  {
  }

  // A discipline that is enough: validations begin locked, and a row that is opened
  // keeps its id.
  predicate Orderly(t: Tables, s: Statement) {
    match s
    case InsertValidation(_, v) => v.holdout == LOCKED && v.exposures == 0
    case UpdateValidation(row, v, _) => row in t.validations && Opened(v.holdout) ==> v.id == t.validations[row].id
    case _ => true
  }

  lemma OrderlyIsJustified(t: Tables, s: Statement)
    requires Evidence(t) && ExposuresUnique(t) && Admitted(t, s) && Orderly(t, s)
    ensures Justified(t, s)
  {
    if s.UpdateValidation? {
      var was := t.validations[s.row];
      assert RowEvidence(t, was);
      if s.validation.id == was.id { UpdatedRowEvidence(t, s.row, s.validation, s.guarded); }
    }
  }

  // Over every such run: an unlocked, running or exposed validation has an APPROVED
  // approval, an exposed one exactly one exposure row, and the stored count agrees.
  lemma {:induction false} RunEvidence(t: Tables, statements: seq<Statement>)
    requires Evidence(t) && ExposuresUnique(t)
    requires forall n :: 0 <= n < |statements| ==> Orderly(RunOf(t, statements[..n]), statements[n])
    ensures Evidence(RunOf(t, statements)) && ExposuresUnique(RunOf(t, statements))
  {
    hide Apply;
    hide Evidence;
    hide ExposuresUnique;
    hide Admitted;
    hide Orderly;
    if statements != [] {
      var n := |statements| - 1;
      assert forall k :: 0 <= k < n ==> statements[..n][..k] == statements[..k];
      RunEvidence(t, statements[..n]);
      var before := RunOf(t, statements[..n]);
      UniqueAfter(before, statements[n]);
      if Admitted(before, statements[n]) {
        OrderlyIsJustified(before, statements[n]);
        StepKeepsEvidenceExactly(before, statements[n]);
      } else {
        Refused(before, statements[n]);
      }
    }
  }

  // ---- exposed for good ----

  // Terminal approvals and exposure rows outlive every run, whatever becomes of the
  // validations, and no second exposure joins one.
  lemma {:induction false} RowsOutliveRuns(t: Tables, statements: seq<Statement>)
    requires ExposuresUnique(t)
    ensures EvidenceKept(t, RunOf(t, statements)) && ExposuresUnique(RunOf(t, statements))
  {
    hide Apply;
    hide ExposuresUnique;
    if statements != [] {
      var n := |statements| - 1;
      RowsOutliveRuns(t, statements[..n]);
      ApplyKeepsEvidence(RunOf(t, statements[..n]), statements[n]);
    }
  }

  // The validation in this row is referenced by this exposure and approved by that approval.
  ghost predicate Pinned(t: Tables, row: int, e: int, a: int) {
    && row in t.validations && e in t.exposures && a in t.approvals
    && t.exposures[e].validation == t.validations[row].id
    && t.approvals[a].validation == Some(t.validations[row].id) && t.approvals[a].status == APPROVED
    && (t.validations[row].holdout == EXPOSED || t.validations[row].holdout == FAILED)
  }

  // The statement neither deletes the row nor gives it another id.
  predicate Spares(s: Statement, row: int, id: string) {
    && s != DeleteValidation(row)
    && (s.UpdateValidation? && s.row == row ==> s.validation.id == id)
  }

  // The exact condition for one statement.
  lemma PinnedStaysExactly(t: Tables, s: Statement, row: int, e: int, a: int)
    requires Pinned(t, row, e, a) && Admitted(t, s)
    ensures Pinned(Apply(t, s), row, e, a) <==> Spares(s, row, t.validations[row].id)
    ensures Pinned(Apply(t, s), row, e, a) ==> StillPinned(t, Apply(t, s), row, e, a)
  {
    hide VersionGuard;
    hide Requested;
    hide Approved;
    hide Exposed;
    hide UniqueExposure;
  }

  ghost predicate StillPinned(t: Tables, after: Tables, row: int, e: int, a: int)
    requires row in t.validations && e in t.exposures && a in t.approvals
  {
    && Pinned(after, row, e, a)
    && after.validations[row].id == t.validations[row].id
    && after.exposures[e] == t.exposures[e]
    && after.approvals[a] == t.approvals[a]
    && (t.validations[row].holdout == FAILED ==> after.validations[row].holdout == FAILED)
  }

  ghost predicate PinnedThroughout(t: Tables, statements: seq<Statement>, row: int, e: int, a: int) {
    forall n :: 0 <= n <= |statements| ==> Pinned(RunOf(t, statements[..n]), row, e, a)
  }

  ghost predicate SparedAt(t: Tables, statements: seq<Statement>, n: nat, row: int, id: string)
    requires n < |statements|
  {
    Admitted(RunOf(t, statements[..n]), statements[n]) ==> Spares(statements[n], row, id)
  }

  // An exposed validation stays with its exposure and approval throughout a run if and
  // only if no admitted statement deletes or renames it. Then its approval and exposure
  // row stay as they are, and it can only stay exposed or fail.
  lemma {:induction false} ExposedForeverExactly(t: Tables, statements: seq<Statement>, row: int, e: int, a: int)
    requires Pinned(t, row, e, a)
    ensures PinnedThroughout(t, statements, row, e, a) <==>
            forall n :: 0 <= n < |statements| ==> SparedAt(t, statements, n, row, t.validations[row].id)
    ensures PinnedThroughout(t, statements, row, e, a) ==> StillPinned(t, RunOf(t, statements), row, e, a)
  {
    hide Apply;
    hide Admitted;
    hide Spares;
    var id := t.validations[row].id;
    if statements == [] {
      assert statements[..0] == statements;
    } else {
      var n := |statements| - 1;
      var before := statements[..n];
      ExposedForeverExactly(t, before, row, e, a);
      assert forall k :: 0 <= k <= n ==> before[..k] == statements[..k];
      assert before[..|before|] == before && statements[..|statements|] == statements;
      assert forall k :: 0 <= k < n ==> (SparedAt(t, before, k, row, id) <==> SparedAt(t, statements, k, row, id));
      if PinnedThroughout(t, before, row, e, a) {
        assert Pinned(RunOf(t, before[..|before|]), row, e, a);
        if Admitted(RunOf(t, before), statements[n]) {
          PinnedStaysExactly(RunOf(t, before), statements[n], row, e, a);
        } else {
          Refused(RunOf(t, before), statements[n]);
        }
        assert Pinned(RunOf(t, statements), row, e, a) <==> SparedAt(t, statements, n, row, id);
      }
      hide Pinned;
      hide SparedAt;
      assert PinnedThroughout(t, statements, row, e, a) <==>
             PinnedThroughout(t, before, row, e, a) && Pinned(RunOf(t, statements), row, e, a);
      assert (forall k :: 0 <= k < |statements| ==> SparedAt(t, statements, k, row, id)) <==>
             (forall k :: 0 <= k < n ==> SparedAt(t, statements, k, row, id)) && SparedAt(t, statements, n, row, id);
    }
  }

  // A row with evidence that is exposed is pinned by some exposure and approval.
  lemma ExposedIsPinned(t: Tables, row: int)
    requires Evidence(t) && row in t.validations && t.validations[row].holdout == EXPOSED
    ensures exists e, a :: Pinned(t, row, e, a)
  {
    var v := t.validations[row];
    assert RowEvidence(t, v);
    var a :| a in t.approvals && t.approvals[a].validation == Some(v.id) && t.approvals[a].status == APPROVED;
    var e :| e in t.exposures && t.exposures[e].validation == v.id;
    assert Pinned(t, row, e, a);
  }

  // ---- which strategy was exposed ----

  // Each exposed validation's strategy version is the one its exposure row records.
  ghost predicate StrategiesMatch(t: Tables) {
    forall v :: v in t.validations && t.validations[v].holdout == EXPOSED ==>
      Exposed(t, t.validations[v].id, t.validations[v].strategy)
  }

  // What a statement must bring with it: a row inserted as exposed an exposure of its own,
  // and a row exposed afterwards its old id and strategy version, which the guard looks at,
  // or an exposure under the new ones, which it does not.
  ghost predicate KeepsStrategy(t: Tables, s: Statement) {
    match s
    case InsertValidation(_, v) => v.holdout == EXPOSED ==> Exposed(t, v.id, v.strategy)
    case UpdateValidation(row, v, _) =>
      row in t.validations && v.holdout == EXPOSED ==>
        if v.id == t.validations[row].id then v.strategy == t.validations[row].strategy
        else Exposed(t, v.id, v.strategy)
    case _ => true
  }

  // An id is exposed with one strategy version at most.
  lemma OneStrategy(t: Tables, id: string, a: string, b: string)
    requires ExposuresUnique(t) && Exposed(t, id, a)
    ensures Exposed(t, id, b) <==> b == a
  {
    var e :| e in t.exposures && t.exposures[e].validation == id && t.exposures[e].strategy == a;
  }

  lemma ExposedStays(t: Tables, s: Statement)
    requires ExposuresUnique(t)
    ensures forall id, strategy :: Exposed(t, id, strategy) ==> Exposed(Apply(t, s), id, strategy)
    ensures s.InsertValidation? || s.UpdateValidation? ==>
              forall id, strategy :: Exposed(Apply(t, s), id, strategy) <==> Exposed(t, id, strategy)
  {
    var after := Apply(t, s);
    ApplyKeepsEvidence(t, s);
    hide Admitted;
    forall id, strategy | Exposed(t, id, strategy)
      ensures Exposed(after, id, strategy)
    {
      var e :| e in t.exposures && t.exposures[e].validation == id && t.exposures[e].strategy == strategy;
      assert e in after.exposures && after.exposures[e] == t.exposures[e];
    }
  }

  lemma MatchedRow(t: Tables, s: Statement)
    requires ExposuresUnique(t) && StrategiesMatch(t) && Admitted(t, s)
    requires s.InsertValidation? || s.UpdateValidation?
    ensures KeepsStrategy(t, s) <==>
            (s.validation.holdout == EXPOSED ==> Exposed(t, s.validation.id, s.validation.strategy))
  {
    if s.UpdateValidation? && s.validation.holdout == EXPOSED {
      var was := t.validations[s.row];
      assert Exposed(t, was.id, was.strategy);
      OneStrategy(t, was.id, was.strategy, s.validation.strategy);
    }
  }

  // The exact condition, for every statement.
  lemma StepKeepsStrategyExactly(t: Tables, s: Statement)
    requires ExposuresUnique(t) && StrategiesMatch(t) && Admitted(t, s)
    ensures StrategiesMatch(Apply(t, s)) <==> KeepsStrategy(t, s)
  {
    var after := Apply(t, s);
    ExposedStays(t, s);
    hide Exposed;
    if s.InsertValidation? || s.UpdateValidation? {
      MatchedRow(t, s);
      assert after.validations[s.row] == s.validation;
      assert forall v :: v in t.validations && v != s.row ==>
               v in after.validations && after.validations[v] == t.validations[v];
    } else {
      assert forall v :: v in after.validations ==> v in t.validations && after.validations[v] == t.validations[v];
    }
    hide Admitted;
    hide KeepsStrategy;
  }

  ghost predicate StrategiesMatchThroughout(t: Tables, statements: seq<Statement>) {
    forall n :: 0 <= n <= |statements| ==> StrategiesMatch(RunOf(t, statements[..n]))
  }

  ghost predicate KeepsStrategyAt(t: Tables, statements: seq<Statement>, n: nat)
    requires n < |statements|
  {
    Admitted(RunOf(t, statements[..n]), statements[n]) ==> KeepsStrategy(RunOf(t, statements[..n]), statements[n])
  }

  // Over a run every exposed validation has the strategy version its exposure records, all
  // along, if and only if every admitted statement kept it.
  lemma {:induction false} RunKeepsStrategyExactly(t: Tables, statements: seq<Statement>)
    requires ExposuresUnique(t) && StrategiesMatch(t)
    ensures StrategiesMatchThroughout(t, statements) <==>
            forall n :: 0 <= n < |statements| ==> KeepsStrategyAt(t, statements, n)
  {
    hide Apply;
    hide StrategiesMatch;
    hide ExposuresUnique;
    hide Admitted;
    hide KeepsStrategy;
    if statements == [] {
      assert statements[..0] == statements;
    } else {
      var n := |statements| - 1;
      var before := statements[..n];
      RunKeepsStrategyExactly(t, before);
      RowsOutliveRuns(t, before);
      assert forall k :: 0 <= k <= n ==> before[..k] == statements[..k];
      assert before[..|before|] == before && statements[..|statements|] == statements;
      assert forall k :: 0 <= k < n ==> (KeepsStrategyAt(t, before, k) <==> KeepsStrategyAt(t, statements, k));
      if StrategiesMatchThroughout(t, before) {
        assert StrategiesMatch(RunOf(t, before[..|before|]));
        if Admitted(RunOf(t, before), statements[n]) {
          StepKeepsStrategyExactly(RunOf(t, before), statements[n]);
        } else {
          Refused(RunOf(t, before), statements[n]);
        }
        assert StrategiesMatch(RunOf(t, statements)) <==> KeepsStrategyAt(t, statements, n);
      }
      hide KeepsStrategyAt;
      assert StrategiesMatchThroughout(t, statements) <==>
             StrategiesMatchThroughout(t, before) && StrategiesMatch(RunOf(t, statements));
      assert (forall k :: 0 <= k < |statements| ==> KeepsStrategyAt(t, statements, k)) <==>
             (forall k :: 0 <= k < n ==> KeepsStrategyAt(t, statements, k)) && KeepsStrategyAt(t, statements, n);
    }
  }

  // ---- inputs at which each of these fails ----

  function FrozenVersion(id: string, number: int): Version {
    Version(id, Identity("", number, "", None, ""), FROZEN, "", "")
  }

  // One exposed validation with its approval and its exposure row, and two strategy
  // versions, the first of which it is about.
  function OneExposed(id: string, strategy: string, other: string): Tables {
    Tables(map[0 := Validation(id, strategy, EXPOSED, 1, "")],
           map[0 := Approval(Some(id), APPROVED, "")],
           map[0 := Exposure(id, strategy, "", "", "")],
           map[0 := FrozenVersion(strategy, 1), 1 := FrozenVersion(other, 2)])
  }

  lemma OneExposedSound(id: string, strategy: string, other: string)
    ensures Evidence(OneExposed(id, strategy, other)) && ExposuresUnique(OneExposed(id, strategy, other))
    ensures StrategiesMatch(OneExposed(id, strategy, other)) && Pinned(OneExposed(id, strategy, other), 0, 0, 0)
  {
    OneExposedRow(id, strategy, other);
    var t := OneExposed(id, strategy, other);
    hide RowEvidence;
    hide Exposed;
    assert t.validations.Keys == {0} && t.exposures.Keys == {0} && t.approvals.Keys == {0};
  }

  lemma OneExposedRow(id: string, strategy: string, other: string)
    ensures var t := OneExposed(id, strategy, other);
            RowEvidence(t, t.validations[0]) && Exposed(t, id, strategy)
  {
    var t := OneExposed(id, strategy, other);
    BackedRow(t, t.validations[0], 0, 0);
  }

  lemma BackedRow(t: Tables, v: Validation, e: int, a: int)
    requires v.holdout == EXPOSED && v.exposures == 1
    requires e in t.exposures && t.exposures[e].validation == v.id && t.exposures[e].strategy == v.strategy
    requires forall o :: o in t.exposures ==> o == e
    requires a in t.approvals && t.approvals[a].validation == Some(v.id) && t.approvals[a].status == APPROVED
    ensures RowEvidence(t, v) && Exposed(t, v.id, v.strategy)
  {
  }

  // An exposed validation can be renamed, and then nothing approves it.
  lemma ExposedCanBeRenamed(id: string, strategy: string, other: string, renamed: string)
    requires renamed != id
    ensures var t := OneExposed(id, strategy, other);
            var s := UpdateValidation(0, Validation(renamed, strategy, EXPOSED, 1, ""), false);
            Admitted(t, s) && !Evidence(Apply(t, s)) && !Pinned(Apply(t, s), 0, 0, 0)
  {
    var t := OneExposed(id, strategy, other);
    var s := UpdateValidation(0, Validation(renamed, strategy, EXPOSED, 1, ""), false);
    assert !RowEvidence(Apply(t, s), Apply(t, s).validations[0]);
  }

  // It can be deleted, and a locked validation of the same id be put in its place, while
  // the exposure row stays.
  lemma ExposedCanBeDeleted(id: string, strategy: string, other: string)
    ensures var t := OneExposed(id, strategy, other);
            var again := InsertValidation(1, Validation(id, strategy, LOCKED, 0, ""));
            var deleted := Apply(t, DeleteValidation(0));
            && Admitted(t, DeleteValidation(0)) && Admitted(deleted, again)
            && !Pinned(deleted, 0, 0, 0)
            && Apply(deleted, again).validations[1].holdout == LOCKED
            && Apply(deleted, again).exposures == t.exposures
  {
  }

  // It can be given another strategy version than the one that was exposed.
  lemma ExposedStrategyCanChange(id: string, strategy: string, other: string)
    requires other != strategy
    ensures var t := OneExposed(id, strategy, other);
            var s := UpdateValidation(0, Validation(id, other, EXPOSED, 1, ""), false);
            Admitted(t, s) && !StrategiesMatch(Apply(t, s))
  {
    var after := Apply(OneExposed(id, strategy, other),
      UpdateValidation(0, Validation(id, other, EXPOSED, 1, ""), false));
    assert after.validations[0].holdout == EXPOSED && !Exposed(after, id, other);
  }

  // A validation can be inserted exposed with no evidence at all.
  lemma ExposedCanBeInserted(id: string, strategy: string)
    ensures var t := Tables(map[], map[], map[], map[0 := FrozenVersion(strategy, 1)]);
            var s := InsertValidation(0, Validation(id, strategy, EXPOSED, 1, ""));
            && Evidence(t) && StrategiesMatch(t) && Admitted(t, s)
            && !Evidence(Apply(t, s)) && !StrategiesMatch(Apply(t, s))
  {
    var t := Tables(map[], map[], map[], map[0 := FrozenVersion(strategy, 1)]);
    var s := InsertValidation(0, Validation(id, strategy, EXPOSED, 1, ""));
    assert 0 in Apply(t, s).validations;
    assert !RowEvidence(Apply(t, s), Apply(t, s).validations[0]);
  }

  // The columns of a frozen version that the guard does not look at can change.
  lemma FrozenColumnsCanChange(v: Version, rest: string)
    requires v.state != CANDIDATE
    ensures var t := Tables(map[], map[], map[], map[0 := v]);
            var s := UpdateVersion(0, v.(rest := rest));
            Admitted(t, s) && Apply(t, s).versions[0].rest == rest
  {
  }

  // ---- strategy versions ----

  function Rank(s: Lifecycle): nat {
    match s
    case CANDIDATE => 0
    case FROZEN => 1
    case VALIDATING => 2
    case VALIDATED => 3
    case REJECTED => 3
    case PAPER => 4
    case RETIRED => 5
  }

  predicate PastCandidate(t: Tables, row: int) {
    row in t.versions && t.versions[row].state != CANDIDATE
  }

  // How often the row's lifecycle state changes over a run.
  function Changes(t: Tables, statements: seq<Statement>, row: int): nat
    requires PastCandidate(t, row)
  {
    if statements == [] then 0
    else
      var n := |statements| - 1;
      FrozenForever(t, statements[..n], row);
      FrozenForever(t, statements, row);
      Changes(t, statements[..n], row) +
        if RunOf(t, statements).versions[row].state != RunOf(t, statements[..n]).versions[row].state then 1 else 0
  }

  lemma FrozenStays(t: Tables, s: Statement, row: int)
    requires PastCandidate(t, row)
    ensures PastCandidate(Apply(t, s), row)
    ensures var was, now := t.versions[row], Apply(t, s).versions[row];
            && now.identity == was.identity
            && (if now.state == was.state then now.detail == was.detail else Rank(was.state) < Rank(now.state))
  {
  }

  // A version past CANDIDATE is never deleted and keeps its specification, and its
  // state only moves forward.
  lemma {:induction false} FrozenForever(t: Tables, statements: seq<Statement>, row: int)
    requires PastCandidate(t, row)
    ensures PastCandidate(RunOf(t, statements), row)
    ensures var was, now := t.versions[row], RunOf(t, statements).versions[row];
            && now.identity == was.identity
            && (if now.state == was.state then now.detail == was.detail else Rank(was.state) < Rank(now.state))
  {
    hide Apply;
    if statements != [] {
      var n := |statements| - 1;
      FrozenForever(t, statements[..n], row);
      FrozenStays(RunOf(t, statements[..n]), statements[n], row);
    }
  }

  // Its state changes at most as often as it can climb, four times in all however long
  // the run.
  lemma {:induction false} FewChanges(t: Tables, statements: seq<Statement>, row: int)
    requires PastCandidate(t, row)
    ensures PastCandidate(RunOf(t, statements), row)
    ensures Rank(t.versions[row].state) + Changes(t, statements, row) <= Rank(RunOf(t, statements).versions[row].state)
    ensures Changes(t, statements, row) <= 4
  {
    hide Apply;
    FrozenForever(t, statements, row);
    if statements != [] {
      var n := |statements| - 1;
      FewChanges(t, statements[..n], row);
      FrozenStays(RunOf(t, statements[..n]), statements[n], row);
    }
  }
}
