// The dependency half of validation. It is checked against the candidate laid over the
// active revision, while the activated revision shows its own rows alone.
module ConfigurationDependencies {
  import opened Wrappers
  import opened Preconditions
  import opened Configuration
  import opened ConfigurationTheorems

  // Every configured key's dependencies are among the given keys.
  predicate DependenciesMet(g: Setting, rows: Values, keys: set<Key>) {
    forall k :: k in rows && k in g.catalog && TextOf(rows[k]).Some? ==> g.catalog[k].dependencies <= keys
  }

  predicate SelfContained(g: Setting, rows: Values) {
    DependenciesMet(g, rows, rows.Keys)
  }

  predicate ActiveSelfContained(g: Setting, c: Config) {
    c.pointer.Some? ==> SelfContained(g, RowsOf(c, c.pointer.value.active))
  }

  // ---- activation ----

  // What validation promises, and all it promises.
  lemma PassingMeetsOverlay(g: Setting, root: Option<string>, revision: int, rows: Values, effective: set<Key>)
    requires AllPass(g, root, revision, rows, effective)
    ensures DependenciesMet(g, rows, effective)
  {
    forall k | k in rows && k in g.catalog && TextOf(rows[k]).Some?
      ensures g.catalog[k].dependencies <= effective
    {
      assert Passes(g, root, revision, k, rows[k], effective);
    }
  }

  lemma ActivationMeetsExactly(g: Setting, c: Config, header: IfMatch, r: int)
    requires ActivateConfiguration(g, c, header, r).1 == Done && !AlreadyActive(c, r)
    ensures ActiveSelfContained(g, ActivateConfiguration(g, c, header, r).0) <==> SelfContained(g, RowsOf(c, r))
  {
    hide Acknowledged;
    hide DependenciesMet;
  }

  // A candidate that passes validation and is then activated keeps its dependencies when
  // it configures every key that the active revision configures.
  lemma CoveringCandidateMeets(g: Setting, root: Option<string>, c: Config, header: IfMatch)
    requires c.pointer.Some? && LatestCandidate(c).Some?
    requires forall k :: k in RowsOf(c, c.pointer.value.active) ==> k in RowsOf(c, LatestCandidate(c).value)
    ensures var r := LatestCandidate(c).value;
            var validated := ValidateCandidate(g, root, c);
            validated.1 == Done && validated.0.revisions[r].phase == VALIDATED ==>
              var activated := ActivateConfiguration(g, validated.0, header, r);
              activated.1 == Done ==> ActiveSelfContained(g, activated.0)
  {
    var r := LatestCandidate(c).value;
    var validated := ValidateCandidate(g, root, c);
    if validated.1 == Done && validated.0.revisions[r].phase == VALIDATED {
      var effective := EffectiveRows(c, r).Keys;
      assert effective == RowsOf(c, r).Keys;
      PassingMeetsOverlay(g, root, r, RowsOf(c, r), effective);
      if ActivateConfiguration(g, validated.0, header, r).1 == Done {
        ActivationMeetsExactly(g, validated.0, header, r);
      }
    }
  }

  // ---- rollback ----

  lemma SameDependencies(g: Setting, root: Option<string>, from: int, to: int, a: Values, b: Values)
    requires a.Keys == b.Keys && RowsSound(g, from, a) && RowsSound(g, to, b)
    requires forall k :: k in a ==> SameContent(g, root, from, a[k], to, b[k], k)
    ensures SelfContained(g, a) <==> SelfContained(g, b)
  {
    forall k | k in a
      ensures TextOf(a[k]) == TextOf(b[k])
    {
      assert RowSound(g, from, k, a[k]) && RowSound(g, to, k, b[k]);
      assert SameContent(g, root, from, a[k], to, b[k], k);
    }
  }

  lemma RollbackMeetsExactly(g: Setting, root: Option<string>, c: Config, header: IfMatch, source: int)
    requires Sound(g, c) && RollbackConfiguration(g, root, c, header, source).1 == Done
    ensures ActiveSelfContained(g, RollbackConfiguration(g, root, c, header, source).0) <==>
            SelfContained(g, RowsOf(c, source))
  {
    var after := RollbackConfiguration(g, root, c, header, source).0;
    RollbackSound(g, root, c, header, source);
    RollbackRestores(g, root, c, header, source);
    assert RevisionSound(g, c, source) && RevisionSound(g, after, c.next);
    SameDependencies(g, root, source, c.next, RowsOf(c, source), RowsOf(after, c.next));
    hide SelfContained;
    hide Sound;
    hide RowsSound;
    hide Copies;
    hide SomeReads;
  }

  // ---- runs ----

  ghost predicate Moves(c: Config, after: Config) {
    after.pointer.Some? && (c.pointer.None? || after.pointer.value.active != c.pointer.value.active)
  }

  // What a caller can look up before a request that moves the active pointer.
  predicate Complete(g: Setting, c: Config, request: Request) {
    match request
    case Activate(_, r) => SelfContained(g, RowsOf(c, r))
    case Rollback(_, source) => SelfContained(g, RowsOf(c, source))
    case _ => true
  }

  lemma StepMeetsExactly(g: Setting, root: Option<string>, c: Config, request: Request)
    requires Sound(g, c) && ActiveSelfContained(g, c)
    ensures var after := Serve(g, root, c, request).0;
            ActiveSelfContained(g, after) <==> (Moves(c, after) ==> Complete(g, c, request))
  {
    ServeSound(g, root, c, request);
    match request {
      case Activate(header, r) =>
        if ActivateConfiguration(g, c, header, r).1 == Done && !AlreadyActive(c, r) {
          ActivationMeetsExactly(g, c, header, r);
        }
        hide SelfContained;
        hide Acknowledged;
      case Rollback(header, source) =>
        if RollbackConfiguration(g, root, c, header, source).1 == Done {
          RollbackMeetsExactly(g, root, c, header, source);
        } else {
          RollbackSucceedsExactly(g, root, c, header, source);
        }
        hide SelfContained;
        hide Copies;
        hide SomeReads;
      case Put(_, _, _) =>
        hide SelfContained;
        hide Drafted;
      case Validate =>
        hide SelfContained;
        hide AllPass;
        hide SomeBreak;
    }
  }

  ghost predicate MetThroughout(g: Setting, c: Config, calls: seq<Call>) {
    forall n :: 0 <= n <= |calls| ==> ActiveSelfContained(g, RunOf(g, c, calls[..n]))
  }

  ghost predicate CompleteAt(g: Setting, c: Config, calls: seq<Call>, n: nat)
    requires n < |calls|
  {
    var before := RunOf(g, c, calls[..n]);
    Moves(before, Serve(g, calls[n].root, before, calls[n].request).0) ==> Complete(g, before, calls[n].request)
  }

  // Over a whole run, the active revision contains its own dependencies all along if and
  // only if every revision activated or rolled back to did.
  lemma {:induction false} RunMeetsExactly(g: Setting, c: Config, calls: seq<Call>)
    requires Sound(g, c) && ActiveSelfContained(g, c)
    ensures MetThroughout(g, c, calls) <==> forall n :: 0 <= n < |calls| ==> CompleteAt(g, c, calls, n)
  {
    hide Serve;
    hide Sound;
    hide ActiveSelfContained;
    hide Moves;
    hide Complete;
    if calls == [] {
      assert calls[..0] == calls;
    } else {
      var n := |calls| - 1;
      var before := calls[..n];
      RunMeetsExactly(g, c, before);
      RunSound(g, c, before);
      assert forall k :: 0 <= k <= n ==> before[..k] == calls[..k];
      assert before[..|before|] == before && calls[..|calls|] == calls;
      assert forall k :: 0 <= k < n ==> (CompleteAt(g, c, before, k) <==> CompleteAt(g, c, calls, k));
      if MetThroughout(g, c, before) {
        assert ActiveSelfContained(g, RunOf(g, c, before[..|before|]));
        StepMeetsExactly(g, calls[n].root, RunOf(g, c, before), calls[n].request);
        assert ActiveSelfContained(g, RunOf(g, c, calls)) <==> CompleteAt(g, c, calls, n);
      }
      hide CompleteAt;
      assert MetThroughout(g, c, calls) <==> MetThroughout(g, c, before) && ActiveSelfContained(g, RunOf(g, c, calls));
      assert (forall k :: 0 <= k < |calls| ==> CompleteAt(g, c, calls, k)) <==>
             (forall k :: 0 <= k < n ==> CompleteAt(g, c, calls, k)) && CompleteAt(g, c, calls, n);
    }
  }

  // ---- an input at which they are lost ----

  // One key that depends on another, each taking any text.
  function Dependent(k: Key, on: Key): Setting {
    Setting("", map[on := Entry(false, 1, {}, {}, (text: string) => true)]
                   [k := Entry(false, 1, {}, {on}, (text: string) => true)])
  }

  // The active revision configures the other key, the candidate the dependent one.
  function DependentCandidate(k: Key, on: Key): Config {
    var row := TypedValue(Some(""), OfTyped(Some("")));
    Config(map[1 := Revision(0, ACTIVE, Zeros), 2 := Revision(1, CANDIDATE, Zeros)], 3,
           map[1 := map[on := row], 2 := map[k := row]], Some(Pointer(1, 1, Some(2))), map[], [])
  }

  // The candidate passes validation, and activating it loses both its dependency and what
  // its preview showed of the active revision.
  lemma DependencyAndPreviewLost(k: Key, on: Key)
    requires k != on
    ensures var g, c := Dependent(k, on), DependentCandidate(k, on);
            var validated := ValidateCandidate(g, None, c);
            var activated := ActivateConfiguration(g, validated.0, Names(1), 2);
            && ActiveSelfContained(g, c)
            && validated.1 == Done && activated.1 == Done
            && !ActiveSelfContained(g, activated.0)
            && EffectiveValues(g, activated.0, 2) != EffectiveValues(g, validated.0, 2)
  {
    var g, c := Dependent(k, on), DependentCandidate(k, on);
    OnlyCandidate(c, 2);
    var row := TypedValue(Some(""), OfTyped(Some("")));
    assert RowsOf(c, 2) == map[k := row] && RowsOf(c, 1) == map[on := row];
    assert EffectiveRows(c, 2).Keys == {on, k};
    assert !SomeBreak(g, None, 2, RowsOf(c, 2));
    assert AllPass(g, None, 2, RowsOf(c, 2), EffectiveRows(c, 2).Keys);
    var validated := ValidateCandidate(g, None, c).0;
    assert validated.revisions[2].phase == VALIDATED;
    ActivationMeetsExactly(g, validated, Names(1), 2);
    assert TextOf(row).Some? && on !in RowsOf(validated, 2);
    PreviewKeptExactly(g, validated, Names(1), 2);
    assert on in RowsOf(validated, 1) && on in g.catalog && on !in RowsOf(validated, 2);
  }
}
