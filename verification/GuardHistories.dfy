// How a validation comes to be exposed and how a strategy version comes to trade: the
// states a run must have passed through, in order, and what stood in the other tables
// when it did. The ordinary course of both is admitted.
module GuardHistories {
  import opened Wrappers
  import opened EvidenceGuards

  // ---- holdouts ----

  ghost predicate PresentThroughout(t: Tables, statements: seq<Statement>, row: int) {
    forall n :: 0 <= n <= |statements| ==> row in RunOf(t, statements[..n]).validations
  }

  function RowAt(t: Tables, statements: seq<Statement>, row: int, n: nat): Validation
    requires n <= |statements| && row in RunOf(t, statements[..n]).validations
  {
    RunOf(t, statements[..n]).validations[row]
  }

  // The only way into each state on the way to exposure.
  function WayInto(h: Holdout): Option<Holdout> {
    match h
    case APPROVAL_PENDING => Some(LOCKED)
    case UNLOCKED => Some(APPROVAL_PENDING)
    case RUNNING => Some(UNLOCKED)
    case EXPOSED => Some(RUNNING)
    case _ => None
  }

  // What the tables must hold for the validation to enter the state.
  ghost predicate Backs(t: Tables, v: Validation, h: Holdout) {
    match h
    case APPROVAL_PENDING =>
      exists a :: a in t.approvals && t.approvals[a].validation == Some(v.id) && t.approvals[a].status == PENDING
    case EXPOSED =>
      exists e :: e in t.exposures && t.exposures[e].validation == v.id && t.exposures[e].strategy == v.strategy
    case _ =>
      exists a :: a in t.approvals && t.approvals[a].validation == Some(v.id) && t.approvals[a].status == APPROVED
  }

  // Statement n takes the row into the state by its one way, with its backing.
  ghost predicate Enters(t: Tables, statements: seq<Statement>, row: int, n: nat, h: Holdout)
    requires PresentThroughout(t, statements, row)
  {
    && n < |statements|
    && var was, now := RowAt(t, statements, row, n), RowAt(t, statements, row, n + 1);
       && now.holdout == h && WayInto(h) == Some(was.holdout)
       && Backs(RunOf(t, statements[..n]), was, h)
       && now.exposures == (if h == EXPOSED then 1 else 0)
       && statements[n] == UpdateValidation(row, now, true)
  }

  lemma EnteringStep(t: Tables, s: Statement, row: int)
    requires row in t.validations && row in Apply(t, s).validations
    requires t.validations[row].holdout != Apply(t, s).validations[row].holdout
    ensures var was, now := t.validations[row], Apply(t, s).validations[row];
            && was.holdout != FAILED
            && s == UpdateValidation(row, now, true)
            && (WayInto(now.holdout).Some? ==>
                  && WayInto(now.holdout) == Some(was.holdout) && Backs(t, was, now.holdout)
                  && now.exposures == (if now.holdout == EXPOSED then 1 else 0))
  {
  }

  lemma {:induction false} Entered(t: Tables, statements: seq<Statement>, row: int, h: Holdout) returns (n: nat)
    requires PresentThroughout(t, statements, row) && WayInto(h).Some?
    requires RowAt(t, statements, row, 0).holdout != h && RowAt(t, statements, row, |statements|).holdout == h
    ensures Enters(t, statements, row, n, h)
  {
    hide Apply;
    hide Backs;
    assert statements[..0] == [] && statements[..|statements|] == statements;
    n := |statements| - 1;
    var before := statements[..n];
    assert forall k :: 0 <= k <= n ==> before[..k] == statements[..k];
    assert RunOf(t, statements) == Apply(RunOf(t, before), statements[n]);
    if RowAt(t, statements, row, n).holdout == h {
      var k := Entered(t, before, row, h);
      n := k;
    } else {
      EnteringStep(RunOf(t, before), statements[n], row);
    }
  }

  lemma PresentPrefix(t: Tables, statements: seq<Statement>, row: int, n: nat)
    requires PresentThroughout(t, statements, row) && n <= |statements|
    ensures PresentThroughout(t, statements[..n], row)
    ensures forall k :: 0 <= k <= n ==> statements[..n][..k] == statements[..k]
  {
    assert forall k :: 0 <= k <= n ==> statements[..n][..k] == statements[..k];
  }

  // A validation that starts locked and ends exposed was requested, unlocked and run
  // before, in that order: requested while an approval for it was pending, unlocked and
  // run while one was granted, and exposed once an exposure row recorded it with its
  // strategy version.
  lemma ExposureCameThrough(t: Tables, statements: seq<Statement>, row: int) returns (a: nat, b: nat, c: nat, d: nat)
    requires PresentThroughout(t, statements, row)
    requires RowAt(t, statements, row, 0).holdout == LOCKED
    requires RowAt(t, statements, row, |statements|).holdout == EXPOSED
    ensures a < b < c < d
    ensures Enters(t, statements, row, a, APPROVAL_PENDING) && Enters(t, statements, row, b, UNLOCKED)
    ensures Enters(t, statements, row, c, RUNNING) && Enters(t, statements, row, d, EXPOSED)
  {
    hide RunOf;
    hide Backs;
    d := Entered(t, statements, row, EXPOSED);
    PresentPrefix(t, statements, row, d);
    c := Entered(t, statements[..d], row, RUNNING);
    PresentPrefix(t, statements, row, c);
    b := Entered(t, statements[..c], row, UNLOCKED);
    PresentPrefix(t, statements, row, b);
    a := Entered(t, statements[..b], row, APPROVAL_PENDING);
  }

  // A failed validation stays failed for as long as it is there.
  lemma {:induction false} FailedForever(t: Tables, statements: seq<Statement>, row: int)
    requires PresentThroughout(t, statements, row) && RowAt(t, statements, row, 0).holdout == FAILED
    ensures RowAt(t, statements, row, |statements|).holdout == FAILED
  {
    hide Apply;
    assert statements[..0] == [] && statements[..|statements|] == statements;
    if statements != [] {
      var n := |statements| - 1;
      PresentPrefix(t, statements, row, n);
      FailedForever(t, statements[..n], row);
      assert RunOf(t, statements) == Apply(RunOf(t, statements[..n]), statements[n]);
      if RunOf(t, statements).validations[row].holdout != FAILED {
        EnteringStep(RunOf(t, statements[..n]), statements[n], row);
      }
    }
  }

  // ---- keys ----

  // No two validations share an id, and no two exposures an approval, a job or a validation.
  ghost predicate KeysUnique(t: Tables) {
    && (forall v, w :: v in t.validations && w in t.validations && v != w ==>
          t.validations[v].id != t.validations[w].id)
    && (forall d, e :: d in t.exposures && e in t.exposures && d != e ==>
          && t.exposures[d].validation != t.exposures[e].validation
          && t.exposures[d].approval != t.exposures[e].approval
          && t.exposures[d].job != t.exposures[e].job)
  }

  lemma KeysStayUnique(t: Tables, s: Statement)
    requires KeysUnique(t)
    ensures KeysUnique(Apply(t, s))
  {
  }

  lemma {:induction false} KeysUniqueThroughout(t: Tables, statements: seq<Statement>)
    requires KeysUnique(t)
    ensures KeysUnique(RunOf(t, statements))
  {
    hide Apply;
    hide KeysUnique;
    if statements != [] {
      KeysUniqueThroughout(t, statements[..|statements| - 1]);
      KeysStayUnique(RunOf(t, statements[..|statements| - 1]), statements[|statements| - 1]);
    }
  }

  // ---- strategy versions ----

  ghost predicate VersionThroughout(t: Tables, statements: seq<Statement>, row: int) {
    forall n :: 0 <= n <= |statements| ==> row in RunOf(t, statements[..n]).versions
  }

  function StateAt(t: Tables, statements: seq<Statement>, row: int, n: nat): Lifecycle
    requires n <= |statements| && row in RunOf(t, statements[..n]).versions
  {
    RunOf(t, statements[..n]).versions[row].state
  }

  // A version comes into each state from here only, retirement aside, which a version
  // can also enter from PAPER.
  predicate Precedes(from: Lifecycle, to: Lifecycle) {
    || (to == FROZEN && from == CANDIDATE)
    || (to == VALIDATING && from == FROZEN)
    || ((to == VALIDATED || to == REJECTED) && from == VALIDATING)
    || (to == PAPER && from == VALIDATED)
    || (to == RETIRED && (from == VALIDATED || from == PAPER))
  }

  ghost predicate Reaches(t: Tables, statements: seq<Statement>, row: int, n: nat, to: Lifecycle)
    requires VersionThroughout(t, statements, row)
  {
    n < |statements| && StateAt(t, statements, row, n + 1) == to && Precedes(StateAt(t, statements, row, n), to)
  }

  lemma VersionStep(t: Tables, s: Statement, row: int)
    requires row in t.versions && row in Apply(t, s).versions
    ensures var from, to := t.versions[row].state, Apply(t, s).versions[row].state; to == from || Precedes(from, to)
  {
  }

  lemma {:induction false} Reached(t: Tables, statements: seq<Statement>, row: int, to: Lifecycle) returns (n: nat)
    requires VersionThroughout(t, statements, row)
    requires StateAt(t, statements, row, 0) != to && StateAt(t, statements, row, |statements|) == to
    ensures Reaches(t, statements, row, n, to)
  {
    hide Apply;
    assert statements[..0] == [] && statements[..|statements|] == statements;
    n := |statements| - 1;
    var before := statements[..n];
    assert forall k :: 0 <= k <= n ==> before[..k] == statements[..k];
    assert RunOf(t, statements) == Apply(RunOf(t, before), statements[n]);
    if StateAt(t, statements, row, n) == to {
      var k := Reached(t, before, row, to);
      n := k;
    } else {
      VersionStep(RunOf(t, before), statements[n], row);
    }
  }

  lemma VersionPrefix(t: Tables, statements: seq<Statement>, row: int, n: nat)
    requires VersionThroughout(t, statements, row) && n <= |statements|
    ensures VersionThroughout(t, statements[..n], row)
    ensures forall k :: 0 <= k <= n ==> statements[..n][..k] == statements[..k]
  {
    assert forall k :: 0 <= k <= n ==> statements[..n][..k] == statements[..k];
  }

  // A version that started as a candidate and trades on paper was frozen, put to
  // validation and validated before, in that order.
  lemma PaperCameThrough(t: Tables, statements: seq<Statement>, row: int) returns (a: nat, b: nat, c: nat, d: nat)
    requires VersionThroughout(t, statements, row)
    requires StateAt(t, statements, row, 0) == CANDIDATE && StateAt(t, statements, row, |statements|) == PAPER
    ensures a < b < c < d
    ensures Reaches(t, statements, row, a, FROZEN) && Reaches(t, statements, row, b, VALIDATING)
    ensures Reaches(t, statements, row, c, VALIDATED) && Reaches(t, statements, row, d, PAPER)
  {
    hide RunOf;
    d := Reached(t, statements, row, PAPER);
    VersionPrefix(t, statements, row, d);
    c := Reached(t, statements[..d], row, VALIDATED);
    VersionPrefix(t, statements, row, c);
    b := Reached(t, statements[..c], row, VALIDATING);
    VersionPrefix(t, statements, row, b);
    a := Reached(t, statements[..b], row, FROZEN);
  }

  // ---- the ordinary course ----

  ghost predicate AllAdmitted(t: Tables, statements: seq<Statement>) {
    forall n :: 0 <= n < |statements| ==> Admitted(RunOf(t, statements[..n]), statements[n])
  }

  lemma AdmittedNext(t: Tables, statements: seq<Statement>, now: Tables, s: Statement, next: Tables)
    requires AllAdmitted(t, statements) && RunOf(t, statements) == now && Admitted(now, s) && Apply(now, s) == next
    ensures AllAdmitted(t, statements + [s]) && RunOf(t, statements + [s]) == next
  {
    hide Admitted;
    hide Apply;
    var all := statements + [s];
    assert all[..|statements|] == statements;
    forall n | 0 <= n < |all|
      ensures Admitted(RunOf(t, all[..n]), all[n])
    {
      assert n < |statements| ==> all[..n] == statements[..n];
    }
  }

  // The tables with the validation in a state, and its approval and exposure if any.
  function Stage(t: Tables, row: int, a: int, e: int, v: Validation, h: Holdout, status: Option<Status>,
                 exposure: Option<Exposure>): Tables {
    t.(validations := t.validations[row := v.(holdout := h, exposures := if h == EXPOSED then 1 else 0)],
       approvals := if status.Some? then t.approvals[a := Approval(Some(v.id), status.value, "")] else t.approvals,
       exposures := if exposure.Some? then t.exposures[e := exposure.value] else t.exposures)
  }

  lemma Moves(t: Tables, row: int, a: int, e: int, v: Validation, h: Holdout, status: Status,
              exposure: Option<Exposure>, to: Holdout)
    requires UniqueId(t, row, v.id) && WayInto(to) == Some(h)
    requires to == APPROVAL_PENDING ==> status == PENDING
    requires to == UNLOCKED || to == RUNNING ==> status == APPROVED
    requires to == EXPOSED ==>
               exposure.Some? && exposure.value.validation == v.id && exposure.value.strategy == v.strategy
    ensures var now, next := Stage(t, row, a, e, v, h, Some(status), exposure),
                             Stage(t, row, a, e, v, to, Some(status), exposure);
            var s := UpdateValidation(row, next.validations[row], true);
            Admitted(now, s) && Apply(now, s) == next
  {
    var now, next := Stage(t, row, a, e, v, h, Some(status), exposure),
                     Stage(t, row, a, e, v, to, Some(status), exposure);
    assert now.approvals[a].validation == Some(v.id) && now.approvals[a].status == status;
    if to == EXPOSED { assert now.exposures[e] == exposure.value; }
    assert now.validations[row := next.validations[row]] == next.validations;
  }

  // Wherever its row, id and keys are free, a validation can be requested, approved, run
  // and exposed, each statement admitted.
  lemma ExposureIsPossible(t: Tables, row: int, a: int, e: int, v: Validation, exposure: Exposure)
    returns (all: seq<Statement>)
    requires row !in t.validations && a !in t.approvals && e !in t.exposures
    requires UniqueId(t, row, v.id) && UniqueExposure(t, exposure)
    requires v.holdout == LOCKED && v.exposures == 0
    requires exposure.validation == v.id && exposure.strategy == v.strategy
    ensures AllAdmitted(t, all)
    ensures RunOf(t, all) == Stage(t, row, a, e, v, EXPOSED, Some(APPROVED), Some(exposure))
  {
    var s0, s1 := Stage(t, row, a, e, v, LOCKED, None, None), Stage(t, row, a, e, v, LOCKED, Some(PENDING), None);
    var s2, s3 := Stage(t, row, a, e, v, APPROVAL_PENDING, Some(PENDING), None),
                  Stage(t, row, a, e, v, APPROVAL_PENDING, Some(APPROVED), None);
    var s4, s5 := Stage(t, row, a, e, v, UNLOCKED, Some(APPROVED), None),
                  Stage(t, row, a, e, v, RUNNING, Some(APPROVED), None);
    var s6, s7 := Stage(t, row, a, e, v, RUNNING, Some(APPROVED), Some(exposure)),
                  Stage(t, row, a, e, v, EXPOSED, Some(APPROVED), Some(exposure));
    var pending, granted := Approval(Some(v.id), PENDING, ""), Approval(Some(v.id), APPROVED, "");
    Others(t, row, a, e, v, exposure);
    Moves(t, row, a, e, v, LOCKED, PENDING, None, APPROVAL_PENDING);
    Moves(t, row, a, e, v, APPROVAL_PENDING, APPROVED, None, UNLOCKED);
    Moves(t, row, a, e, v, UNLOCKED, APPROVED, None, RUNNING);
    Moves(t, row, a, e, v, RUNNING, APPROVED, Some(exposure), EXPOSED);
    hide Admitted;
    hide Apply;
    hide UniqueId;
    hide UniqueExposure;
    hide Stage;
    all := [];
    assert RunOf(t, all) == t && AllAdmitted(t, all);
    hide RunOf;
    hide AllAdmitted;
    AdmittedNext(t, all, t, InsertValidation(row, v), s0);
    all := all + [InsertValidation(row, v)];
    AdmittedNext(t, all, s0, InsertApproval(a, pending), s1);
    all := all + [InsertApproval(a, pending)];
    AdmittedNext(t, all, s1, UpdateValidation(row, s2.validations[row], true), s2);
    all := all + [UpdateValidation(row, s2.validations[row], true)];
    AdmittedNext(t, all, s2, UpdateApproval(a, granted), s3);
    all := all + [UpdateApproval(a, granted)];
    AdmittedNext(t, all, s3, UpdateValidation(row, s4.validations[row], true), s4);
    all := all + [UpdateValidation(row, s4.validations[row], true)];
    AdmittedNext(t, all, s4, UpdateValidation(row, s5.validations[row], true), s5);
    all := all + [UpdateValidation(row, s5.validations[row], true)];
    AdmittedNext(t, all, s5, InsertExposure(e, exposure), s6);
    all := all + [InsertExposure(e, exposure)];
    AdmittedNext(t, all, s6, UpdateValidation(row, s7.validations[row], true), s7);
    all := all + [UpdateValidation(row, s7.validations[row], true)];
  }

  lemma Others(t: Tables, row: int, a: int, e: int, v: Validation, exposure: Exposure)
    requires row !in t.validations && a !in t.approvals && e !in t.exposures
    requires UniqueId(t, row, v.id) && UniqueExposure(t, exposure) && v.holdout == LOCKED && v.exposures == 0
    ensures var s0, s1 := Stage(t, row, a, e, v, LOCKED, None, None),
                          Stage(t, row, a, e, v, LOCKED, Some(PENDING), None);
            && Admitted(t, InsertValidation(row, v)) && Apply(t, InsertValidation(row, v)) == s0
            && Admitted(s0, InsertApproval(a, Approval(Some(v.id), PENDING, "")))
            && Apply(s0, InsertApproval(a, Approval(Some(v.id), PENDING, ""))) == s1
    ensures var s2, s3 := Stage(t, row, a, e, v, APPROVAL_PENDING, Some(PENDING), None),
                          Stage(t, row, a, e, v, APPROVAL_PENDING, Some(APPROVED), None);
            && row in s2.validations
            && Admitted(s2, UpdateApproval(a, Approval(Some(v.id), APPROVED, "")))
            && Apply(s2, UpdateApproval(a, Approval(Some(v.id), APPROVED, ""))) == s3
    ensures var s5, s6 := Stage(t, row, a, e, v, RUNNING, Some(APPROVED), None),
                          Stage(t, row, a, e, v, RUNNING, Some(APPROVED), Some(exposure));
            Admitted(s5, InsertExposure(e, exposure)) && Apply(s5, InsertExposure(e, exposure)) == s6
    ensures forall h, status, x :: row in Stage(t, row, a, e, v, h, status, x).validations
  {
  }

  // What a deletion removes: a pending approval, a candidate version, any validation, and
  // never an exposure.
  lemma DeletionsExactly(t: Tables, row: int)
    ensures row in Apply(t, DeleteApproval(row)).approvals <==>
            row in t.approvals && t.approvals[row].status != PENDING
    ensures row in Apply(t, DeleteVersion(row)).versions <==> row in t.versions && t.versions[row].state != CANDIDATE
    ensures row !in Apply(t, DeleteValidation(row)).validations
    ensures Apply(t, DeleteExposure(row)) == t
  {
  }

  // A frozen version can be validated, traded and retired; a validated one retired at
  // once; one in validation rejected. Its columns stay as they are.
  lemma TradingIsPossible(t: Tables, row: int, v: Version)
    requires row !in t.versions && v.state == CANDIDATE
    ensures var at := (s: Lifecycle) => t.(versions := t.versions[row := v.(state := s)]);
            && Apply(t, InsertVersion(row, v)) == at(CANDIDATE)
            && forall from, to :: Precedes(from, to) ==>
                 Admitted(at(from), UpdateVersion(row, v.(state := to))) &&
                 Apply(at(from), UpdateVersion(row, v.(state := to))) == at(to)
  {
  }
}
