// The domain-database connection revisions: candidate, validation, activation and
// revert, as sequential transactions. Probing and rebinding are arbitrary answers.
module DatabaseConnection {
  import opened Wrappers
  import opened Preconditions
  import Totals

  datatype Phase = CANDIDATE | VALIDATED | FAILED | ACTIVE | SUPERSEDED

  datatype Revision = Revision(phase: Phase, base: int, validated: bool, failure: Option<string>, activated: bool)

  // Revisions are numbered from one; the bootstrap row holds the two pointers.
  datatype Connections = Connections(
    rows: map<int, Revision>,
    next: int,
    active: Option<int>,
    lastKnownGood: Option<int>
  )

  datatype Outcome = Done | NotFound | Refused(mismatch: Mismatch) | ConnectionFailed |
                     ProbeFailed | SwitchFailed | Crashed

  datatype Request =
    | Put(base: int, rootKey: bool)
    | Validate(probe: Option<string>)
    | Activate(header: IfMatch, probe: Option<string>, rebinds: bool)
    | Revert(header: IfMatch, probe: Option<string>, rebinds: bool)

  // ---- the latest revision in a phase ----

  function InPhase(rows: map<int, Revision>, phase: Phase): set<int> {
    set r | r in rows && rows[r].phase == phase
  }

  // select ... where state = phase order by revision desc
  function Latest(rows: map<int, Revision>, phase: Phase): (r: Option<int>)
    ensures r.None? <==> InPhase(rows, phase) == {}
    ensures r.Some? ==> r.value in rows && rows[r.value].phase == phase
    ensures r.Some? ==> forall y :: y in rows && rows[y].phase == phase ==> y <= r.value
  {
    var s := InPhase(rows, phase);
    assert forall y :: y in rows && rows[y].phase == phase ==> y in s;
    Totals.Greatest(s)
  }

  function Current(c: Connections): int {
    match Latest(c.rows, ACTIVE)
    case Some(r) => r
    case None => 0
  }

  function Superseding(rows: map<int, Revision>, r: Option<int>): map<int, Revision> {
    if r.Some? && r.value in rows then rows[r.value := rows[r.value].(phase := SUPERSEDED)] else rows
  }

  function Failing(rows: map<int, Revision>, r: int, code: string): map<int, Revision>
    requires r in rows
  {
    rows[r := rows[r].(phase := FAILED, failure := Some(code))]
  }

  function Serve(c: Connections, request: Request): (Connections, Outcome) {
    match request
    case Put(base, rootKey) =>
      if base != (if Current(c) > 1 then Current(c) else 1) then (c, Refused(RevisionMismatch))
      // without a root key sealing raises, and the inserted row is undone
      else if !rootKey then (c, Crashed)
      else (c.(rows := c.rows[c.next := Revision(CANDIDATE, base, false, None, false)], next := c.next + 1), Done)
    case Validate(probe) =>
      (match Latest(c.rows, CANDIDATE)
       case None => (c, NotFound)
       case Some(r) =>
         (c.(rows := c.rows[r := c.rows[r].(phase := if probe.Some? then FAILED else VALIDATED,
                                            validated := true, failure := probe)]), Done))
    case Activate(header, probe, rebinds) =>
      var active, candidate := Latest(c.rows, ACTIVE), Latest(c.rows, VALIDATED);
      var mismatch := Precondition(header, Current(c));
      if mismatch.Some? then (c, Refused(mismatch.value))
      else if candidate.None? then (c, ConnectionFailed)
      // the failure is recorded although the request is refused
      else if probe.Some? then (c.(rows := Failing(c.rows, candidate.value, probe.value)), ProbeFailed)
      else if !rebinds then (c.(rows := Failing(c.rows, candidate.value, "DATABASE_SWITCH_FAILED")), SwitchFailed)
      else
        var rows := Superseding(c.rows, active);
        (c.(rows := rows[candidate.value := rows[candidate.value].(phase := ACTIVE, activated := true)],
            active := candidate,
            lastKnownGood := if active.Some? then active else candidate), Done)
    case Revert(header, probe, rebinds) =>
      var active := Latest(c.rows, ACTIVE);
      var good := if c.lastKnownGood.Some? && c.lastKnownGood.value in c.rows then c.lastKnownGood else None;
      var mismatch := Precondition(header, Current(c));
      if mismatch.Some? then (c, Refused(mismatch.value))
      else if active.None? || good.None? || good == active then (c, SwitchFailed)
      else if probe.Some? then (c, ProbeFailed)
      else if !rebinds then (c, SwitchFailed)
      else
        var rows := Superseding(c.rows, active);
        (c.(rows := rows[good.value := rows[good.value].(phase := ACTIVE)],
            active := good, lastKnownGood := good), Done)
  }

  // ---- what every request keeps ----

  ghost predicate OneActive(c: Connections) {
    forall r :: r in c.rows ==> (c.rows[r].phase == ACTIVE <==> c.active == Some(r))
  }

  predicate WasActive(rows: map<int, Revision>, r: int) {
    r in rows && (rows[r].phase == ACTIVE || rows[r].phase == SUPERSEDED)
  }

  predicate Passed(row: Revision) {
    row.validated && row.failure.None?
  }

  ghost predicate Sound(c: Connections) {
    && OneActive(c)
    && (forall r :: r in c.rows ==> 1 <= r < c.next)
    && (c.active.Some? ==> c.active.value in c.rows)
    && (c.active.Some? <==> c.lastKnownGood.Some?)
    && (c.lastKnownGood.Some? ==> WasActive(c.rows, c.lastKnownGood.value))
    && (forall r :: r in c.rows && c.rows[r].phase in {VALIDATED, ACTIVE, SUPERSEDED} ==> Passed(c.rows[r]))
    && c.next >= 1
  }

  lemma ActiveIsPointer(c: Connections)
    requires Sound(c)
    ensures Latest(c.rows, ACTIVE) == c.active
  {
    if c.active.Some? {
      var r := c.active.value;
      assert r in c.rows && c.active == Some(r);
      assert c.rows[r].phase == ACTIVE;
      assert c.active.value in InPhase(c.rows, ACTIVE);
    }
  }

  lemma ServeSound(c: Connections, request: Request)
    requires Sound(c)
    ensures Sound(Serve(c, request).0)
  {
    ActiveIsPointer(c);
    hide InPhase;
    hide Precondition;
    match request {
      case Put(_, _) =>
      case Validate(_) =>
      case Activate(_, _, _) =>
      case Revert(_, _, _) =>
    }
  }

  function RunOf(c: Connections, requests: seq<Request>): Connections {
    if requests == [] then c else Serve(RunOf(c, requests[..|requests| - 1]), requests[|requests| - 1]).0
  }

  // In every reachable state at most one revision is ACTIVE and the bootstrap
  // pointer names it, and the last known good one is ACTIVE or SUPERSEDED and
  // passed validation.
  lemma {:induction false} RunSound(c: Connections, requests: seq<Request>)
    requires Sound(c)
    ensures Sound(RunOf(c, requests))
  {
    hide Serve;
    hide Sound;
    if requests != [] {
      RunSound(c, requests[..|requests| - 1]);
      ServeSound(RunOf(c, requests[..|requests| - 1]), requests[|requests| - 1]);
    }
  }

  lemma EmptySound()
    ensures Sound(Connections(map[], 1, None, None))
  {
  }

  function RefusalOr(mismatch: Option<Mismatch>, otherwise: Outcome): Outcome {
    if mismatch.Some? then Refused(mismatch.value) else otherwise
  }

  // ---- the answers ----

  // The header names the revision that is active, or none where there is none.
  predicate NamesActive(c: Connections, header: IfMatch) {
    header == Names(if c.active.Some? then c.active.value else 0)
  }

  // The latest revision that waits in a phase.
  predicate Waits(c: Connections, phase: Phase, r: int) {
    && r in c.rows && c.rows[r].phase == phase
    && forall y :: y in c.rows && c.rows[y].phase == phase ==> y <= r
  }

  // Which requests succeed, told from the pointers and the request. Of those that do not,
  // only an activation that finds its candidate unfit changes anything: it marks that
  // candidate as failed.
  lemma AnswersExactly(c: Connections, request: Request)
    requires Sound(c)
    ensures var (after, answer) := Serve(c, request);
            && (answer == Done <==>
                  match request
                  case Put(base, rootKey) => rootKey && base == if c.active.Some? then c.active.value else 1
                  case Validate(_) => exists r :: Waits(c, CANDIDATE, r)
                  case Activate(header, probe, rebinds) =>
                    NamesActive(c, header) && probe.None? && rebinds && exists r :: Waits(c, VALIDATED, r)
                  case Revert(header, probe, rebinds) =>
                    && NamesActive(c, header) && c.active.Some? && probe.None? && rebinds
                    && c.lastKnownGood != c.active)
            && (answer != Done && after != c ==>
                  && request.Activate? && NamesActive(c, request.header)
                  && exists r :: Waits(c, VALIDATED, r) && FailsOnly(c, request, after, r))
  {
    ActiveIsPointer(c);
    hide InPhase;
    if request.Activate? && Latest(c.rows, VALIDATED).Some? {
      assert Waits(c, VALIDATED, Latest(c.rows, VALIDATED).value);
    }
    if request.Validate? && Latest(c.rows, CANDIDATE).Some? {
      assert Waits(c, CANDIDATE, Latest(c.rows, CANDIDATE).value);
    }
    NothingLatest(c);
  }

  lemma NothingLatest(c: Connections)
    ensures forall phase :: Latest(c.rows, phase).None? ==> forall r :: !Waits(c, phase, r)
  {
    forall phase | Latest(c.rows, phase).None?
      ensures forall r :: !Waits(c, phase, r)
    {
      forall r
        ensures !Waits(c, phase, r)
      {
        assert r !in InPhase(c.rows, phase);
      }
    }
  }

  ghost predicate FailsOnly(c: Connections, request: Request, after: Connections, r: int)
    requires request.Activate?
  {
    && r in c.rows
    && after.rows == c.rows[r := c.rows[r].(phase := FAILED,
                                            failure := if request.probe.Some? then request.probe
                                                       else Some("DATABASE_SWITCH_FAILED"))]
    && after.next == c.next && after.active == c.active && after.lastKnownGood == c.lastKnownGood
  }

  // The latest candidate is judged by its probe alone and nothing else changes; a new one
  // takes the next number.
  lemma JudgedByProbe(c: Connections, probe: Option<string>, r: int)
    requires Waits(c, CANDIDATE, r)
    ensures var after := Serve(c, Validate(probe)).0;
            && r in after.rows && after.rows.Keys == c.rows.Keys
            && (after.rows[r].phase == VALIDATED <==> probe.None?)
            && (after.rows[r].phase == FAILED <==> probe.Some?)
            && after.rows[r].failure == probe && after.rows[r].validated
            && (forall y :: y in c.rows && y != r ==> after.rows[y] == c.rows[y])
            && after.active == c.active && after.lastKnownGood == c.lastKnownGood && after.next == c.next
  {
    assert r in InPhase(c.rows, CANDIDATE);
  }

  // ---- activate, then revert ----

  // A successful activation makes the latest validated revision active and remembers
  // the one before it.
  lemma ActivationRemembers(c: Connections, header: IfMatch, rebinds: bool)
    requires Sound(c) && Serve(c, Activate(header, None, rebinds)).1 == Done
    ensures var after := Serve(c, Activate(header, None, rebinds)).0;
            && after.active == Latest(c.rows, VALIDATED) != c.active
            && after.lastKnownGood == if c.active.Some? then c.active else after.active
  {
    ActiveIsPointer(c);
  }

  // Reverting right after an activation that replaced a revision makes that revision
  // active again, and a further revert is refused and changes nothing. After a first
  // activation there is nothing to revert to.
  lemma RevertUndoesActivation(c: Connections, header: IfMatch, probe: Option<string>, again: IfMatch,
                               probeAgain: Option<string>, rebinds: bool)
    requires Sound(c) && Serve(c, Activate(header, None, true)).1 == Done
    ensures var activated := Serve(c, Activate(header, None, true)).0;
            var reverted := Serve(activated, Revert(Names(activated.active.value), None, true));
            if c.active.Some? then
              && reverted.1 == Done
              && reverted.0.active == c.active == reverted.0.lastKnownGood
              && Serve(reverted.0, Revert(again, probeAgain, rebinds)).0 == reverted.0
              && Serve(reverted.0, Revert(again, probeAgain, rebinds)).1 != Done
            else
              && Serve(activated, Revert(again, probe, rebinds)) ==
                   (activated, RefusalOr(Precondition(again, activated.active.value), SwitchFailed))
  {
    ActiveIsPointer(c);
    ActivationRemembers(c, header, true);
    ServeSound(c, Activate(header, None, true));
    var activated := Serve(c, Activate(header, None, true)).0;
    ActiveIsPointer(activated);
    ServeSound(activated, Revert(Names(activated.active.value), None, true));
    var reverted := Serve(activated, Revert(Names(activated.active.value), None, true)).0;
    ActiveIsPointer(reverted);
    hide Sound;
  }

  // ---- superseded for good ----

  // A superseded revision that is not the last known good one.
  ghost predicate Retired(c: Connections, r: int) {
    r in c.rows && c.rows[r].phase == SUPERSEDED && c.lastKnownGood != Some(r)
  }

  lemma RetiredStays(c: Connections, request: Request, r: int)
    requires Sound(c) && Retired(c, r)
    ensures Retired(Serve(c, request).0, r)
  {
  }

  // Such a revision never becomes active again, over any run; in particular the
  // revision a revert leaves behind.
  lemma {:induction false} RetiredForever(c: Connections, requests: seq<Request>, r: int)
    requires Sound(c) && Retired(c, r)
    ensures Retired(RunOf(c, requests), r)
  {
    hide Serve;
    hide Sound;
    hide Retired;
    if requests != [] {
      var n := |requests| - 1;
      RunSound(c, requests[..n]);
      RetiredForever(c, requests[..n], r);
      RetiredStays(RunOf(c, requests[..n]), requests[n], r);
    }
  }

  lemma RevertRetires(c: Connections, header: IfMatch)
    requires Sound(c) && Serve(c, Revert(header, None, true)).1 == Done
    ensures c.active.Some? && Retired(Serve(c, Revert(header, None, true)).0, c.active.value)
  {
  }

  // ---- the handlers ----

  class Bootstrap {
    var rows: map<int, Revision>
    var next: int
    var active: Option<int>
    var lastKnownGood: Option<int>

    constructor (c: Connections)
      ensures Value() == c
    {
      rows, next, active, lastKnownGood := c.rows, c.next, c.active, c.lastKnownGood;
    }

    function Value(): Connections
      reads this
    {
      Connections(rows, next, active, lastKnownGood)
    }

    method PutCandidate(base: int, rootKey: bool) returns (outcome: Outcome)
      modifies this
      ensures (Value(), outcome) == Serve(old(Value()), Put(base, rootKey))
    {
      var current := Current(Value());
      if base != (if current > 1 then current else 1) { return Refused(RevisionMismatch); }
      var saved := (rows, next);
      rows := rows[next := Revision(CANDIDATE, base, false, None, false)];
      next := next + 1;
      if !rootKey {
        rows, next := saved.0, saved.1;
        return Crashed;
      }
      return Done;
    }

    method ValidateCandidate(probe: Option<string>) returns (outcome: Outcome)
      modifies this
      ensures (Value(), outcome) == Serve(old(Value()), Validate(probe))
    {
      var candidate := Latest(rows, CANDIDATE);
      if candidate.None? { return NotFound; }
      var row := rows[candidate.value];
      row := row.(phase := if probe.Some? then FAILED else VALIDATED);
      row := row.(failure := probe);
      row := row.(validated := true);
      rows := rows[candidate.value := row];
      return Done;
    }

    method ActivateCandidate(header: IfMatch, probe: Option<string>, rebinds: bool) returns (outcome: Outcome)
      modifies this
      ensures (Value(), outcome) == Serve(old(Value()), Activate(header, probe, rebinds))
    {
      var current, candidate := Latest(rows, ACTIVE), Latest(rows, VALIDATED);
      var mismatch := Precondition(header, Current(Value()));
      if mismatch.Some? { return Refused(mismatch.value); }
      if candidate.None? { return ConnectionFailed; }
      var r := candidate.value;
      if probe.Some? {
        rows := rows[r := rows[r].(phase := FAILED, failure := probe)];
        return ProbeFailed;
      }
      if !rebinds {
        rows := rows[r := rows[r].(phase := FAILED, failure := Some("DATABASE_SWITCH_FAILED"))];
        return SwitchFailed;
      }
      if current.Some? { rows := rows[current.value := rows[current.value].(phase := SUPERSEDED)]; }
      rows := rows[r := rows[r].(phase := ACTIVE, activated := true)];
      active := Some(r);
      lastKnownGood := if current.Some? then current else Some(r);
      return Done;
    }

    method RevertConnection(header: IfMatch, probe: Option<string>, rebinds: bool) returns (outcome: Outcome)
      modifies this
      ensures (Value(), outcome) == Serve(old(Value()), Revert(header, probe, rebinds))
    {
      var current := Latest(rows, ACTIVE);
      var good := if lastKnownGood.Some? && lastKnownGood.value in rows then lastKnownGood else None;
      var mismatch := Precondition(header, Current(Value()));
      if mismatch.Some? { return Refused(mismatch.value); }
      if current.None? || good.None? || good.value == current.value { return SwitchFailed; }
      if probe.Some? { return ProbeFailed; }
      if !rebinds { return SwitchFailed; }
      rows := rows[current.value := rows[current.value].(phase := SUPERSEDED)];
      rows := rows[good.value := rows[good.value].(phase := ACTIVE)];
      active, lastKnownGood := good, good;
      return Done;
    }
  }
}
