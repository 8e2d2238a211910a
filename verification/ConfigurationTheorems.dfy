// What configuration requests keep over every run, what a rollback restores, and what
// the candidate preview does and does not promise.
module ConfigurationTheorems {
  import opened Wrappers
  import opened Preconditions
  import opened Configuration

  // ---- soundness ----

  lemma {:induction false} DraftSound(g: Setting, root: Option<string>, revision: int, items: seq<Item>)
    ensures var d := Drafted(g, root, revision, items);
            RowsSound(g, revision, d.rows) && d.shown == ShownOf(d.rows)
  {
    hide Added;
    if items != [] {
      var before := items[..|items| - 1];
      DraftSound(g, root, revision, before);
      AddedSound(g, root, revision, Drafted(g, root, revision, before), items[|items| - 1]);
    }
  }

  lemma AddedSound(g: Setting, root: Option<string>, revision: int, d: Draft, item: Item)
    requires RowsSound(g, revision, d.rows) && d.shown == ShownOf(d.rows)
    ensures var after := Added(g, root, revision, d, item);
            RowsSound(g, revision, after.rows) && after.shown == ShownOf(after.rows)
  {
    AddedRows(g, root, revision, d, item);
    AddedShown(g, root, revision, d, item);
    hide Added;
    hide RowsSound;
    hide ShownOf;
  }

  lemma AddedRows(g: Setting, root: Option<string>, revision: int, d: Draft, item: Item)
    requires RowsSound(g, revision, d.rows)
    ensures RowsSound(g, revision, Added(g, root, revision, d, item).rows)
  {
  }

  lemma AddedShown(g: Setting, root: Option<string>, revision: int, d: Draft, item: Item)
    requires d.shown == ShownOf(d.rows)
    ensures Added(g, root, revision, d, item).shown == ShownOf(Added(g, root, revision, d, item).rows)
  {
  }

  lemma CopiesSound(g: Setting, root: Option<string>, source: int, revision: int, rows: Values)
    requires RowsSound(g, source, rows)
    requires !SomeReads(g, root, source, rows, Raised) && !SomeReads(g, root, source, rows, Unavailable)
    ensures var copies := Copies(g, root, source, revision, rows);
            && copies.Keys == rows.Keys
            && RowsSound(g, revision, copies)
            && forall k :: k in rows ==> SameContent(g, root, source, rows[k], revision, copies[k], k)
  {
  }

  // Two stored rows mean the same: equal typed value and digest, and secrets that open,
  // each under its own revision's associated data, to the same text.
  predicate SameContent(g: Setting, root: Option<string>, from: int, a: Value, to: int, b: Value, k: Key) {
    && a.typed == b.typed
    && a.digest == b.digest
    && (a.cipher.Some? <==> b.cipher.Some?)
    && (a.cipher.Some? ==>
          && Plaintext(g, root, from, k, a).Opened?
          && Plaintext(g, root, to, k, b) == Plaintext(g, root, from, k, a)
          && (from != to ==> b.cipher != a.cipher))
  }

  // Everything a request may do to the tables: at most one new revision, no stored row
  // and no snapshot of another revision touched.
  ghost predicate Extends(c: Config, after: Config) {
    && c.next <= after.next
    && (forall r :: r in c.revisions ==>
          r in after.revisions && after.revisions[r].snapshot == c.revisions[r].snapshot &&
          after.revisions[r].base == c.revisions[r].base && RowsOf(after, r) == RowsOf(c, r))
  }

  lemma InsertSound(g: Setting, c: Config, row: Revision, rows: Values)
    requires Sound(g, c) && RowsSound(g, c.next, rows) && SnapshotMatches(row.snapshot, rows)
    ensures Sound(g, Inserted(c, row, rows)) && Extends(c, Inserted(c, row, rows))
  {
  }

  lemma PhaseSound(g: Setting, c: Config, r: int, phase: Phase)
    requires Sound(g, c) && r in c.revisions
    requires phase == ACTIVE || c.revisions[r].phase != ACTIVE
    ensures var after := c.(revisions := c.revisions[r := c.revisions[r].(phase := phase)]);
            Sound(g, after) && Extends(c, after)
  {
  }

  // Audit entries and consumer rows do not matter, and neither does a pointer to
  // ACTIVE revisions.
  lemma PointerSound(g: Setting, c: Config, pointer: Option<Pointer>, consumers: map<string, Consumer>,
                     audit: seq<Event>)
    requires Sound(g, c)
    requires pointer.Some? ==> IsActive(c, pointer.value.active) && IsActive(c, pointer.value.lastKnownGood)
    ensures var after := c.(pointer := pointer, consumers := consumers, audit := audit);
            Sound(g, after) && Extends(c, after)
  {
  }

  lemma PutSound(g: Setting, root: Option<string>, c: Config, header: IfMatch, base: int, items: seq<Item>)
    requires Sound(g, c)
    ensures var after := PutCandidate(g, root, c, header, base, items).0; Sound(g, after) && Extends(c, after)
  {
    hide Sound;
    hide Drafted;
    hide RowsSound;
    DraftSound(g, root, c.next, items);
    var d := Drafted(g, root, c.next, items);
    InsertSound(g, c, Revision(base, CANDIDATE, Zeros), d.rows);
    InsertSound(g, c, Revision(base, CANDIDATE, Hash(d.shown)), d.rows);
    var outcome := PutCandidate(g, root, c, header, base, items);
    if outcome.1 == Done {
      var after := Inserted(c, Revision(base, CANDIDATE, Hash(d.shown)), d.rows);
      PointsStay(g, c, after);
      PointerSound(g, after, outcome.0.pointer, c.consumers, outcome.0.audit);
    }
  }

  lemma PointsStay(g: Setting, c: Config, after: Config)
    requires Sound(g, c) && Sound(g, after) && c.pointer == after.pointer && c.pointer.Some?
    ensures IsActive(after, c.pointer.value.active) && IsActive(after, c.pointer.value.lastKnownGood)
  {
  }

  lemma ValidateSound(g: Setting, root: Option<string>, c: Config)
    requires Sound(g, c)
    ensures var after := ValidateCandidate(g, root, c).0; Sound(g, after) && Extends(c, after)
  {
    hide SomeBreak;
    hide AllPass;
    hide RowsSound;
    hide SnapshotMatches;
    var candidate := LatestCandidate(c);
    if candidate.Some? && !SomeBreak(g, root, candidate.value, RowsOf(c, candidate.value)) {
      var after := ValidateCandidate(g, root, c).0;
      var r := candidate.value;
      PhaseSound(g, c, r, after.revisions[r].phase);
      var middle := c.(revisions := after.revisions);
      PointerSound(g, middle, c.pointer, c.consumers, after.audit);
    }
  }

  lemma ActivatedSound(g: Setting, c: Config, r: int)
    requires Sound(g, c) && r in c.revisions
    ensures Sound(g, Activated(g, c, r)) && Extends(c, Activated(g, c, r))
  {
  }

  lemma RollbackSound(g: Setting, root: Option<string>, c: Config, header: IfMatch, source: int)
    requires Sound(g, c)
    ensures var after := RollbackConfiguration(g, root, c, header, source).0; Sound(g, after) && Extends(c, after)
  {
    hide SomeReads;
    hide Copies;
    hide RowsSound;
    hide SameContent;
    var outcome := RollbackConfiguration(g, root, c, header, source);
    if outcome.1 == Done && source in c.revisions {
      var rows := RowsOf(c, source);
      assert RevisionSound(g, c, source);
      CopiesSound(g, root, source, c.next, rows);
      var copies := Copies(g, root, source, c.next, rows);
      ShownSame(g, root, source, c.next, rows, copies);
      var middle := Inserted(c, Revision(Current(c), ACTIVE, c.revisions[source].snapshot), copies);
      InsertSound(g, c, Revision(Current(c), ACTIVE, c.revisions[source].snapshot), copies);
      PointerSound(g, middle, outcome.0.pointer, c.consumers, outcome.0.audit);
    }
  }

  lemma ShownSame(g: Setting, root: Option<string>, from: int, to: int, a: Values, b: Values)
    requires a.Keys == b.Keys && forall k :: k in a ==> SameContent(g, root, from, a[k], to, b[k], k)
    ensures ShownOf(a) == ShownOf(b) && Views(g, a) == Views(g, b)
  {
  }

  lemma ServeSound(g: Setting, root: Option<string>, c: Config, request: Request)
    requires Sound(g, c)
    ensures var after := Serve(g, root, c, request).0; Sound(g, after) && Extends(c, after)
  {
    hide Sound;
    hide Extends;
    hide PutCandidate;
    hide ValidateCandidate;
    hide RollbackConfiguration;
    match request {
      case Put(header, base, items) => PutSound(g, root, c, header, base, items);
      case Validate => ValidateSound(g, root, c);
      case Activate(header, r) =>
        Unchanged(c);
        if r in c.revisions { ActivatedSound(g, c, r); }
      case Rollback(header, source) => RollbackSound(g, root, c, header, source);
    }
  }

  lemma Unchanged(c: Config)
    ensures Extends(c, c)
  {
  }

  // ---- runs ----

  // A request and the root key configured while it is served.
  datatype Call = Call(root: Option<string>, request: Request)

  function RunOf(g: Setting, c: Config, calls: seq<Call>): Config {
    if calls == [] then c
    else
      var last := calls[|calls| - 1];
      Serve(g, last.root, RunOf(g, c, calls[..|calls| - 1]), last.request).0
  }

  // Over every run, under any sequence of root keys: every stored envelope is sealed
  // under its own associated data, snapshots match contents, both pointers name ACTIVE
  // revisions; and the rows of a revision never change once it exists.
  lemma {:induction false} RunSound(g: Setting, c: Config, calls: seq<Call>)
    requires Sound(g, c)
    ensures Sound(g, RunOf(g, c, calls)) && Extends(c, RunOf(g, c, calls))
  {
    hide Serve;
    hide Sound;
    if calls == [] {
      Unchanged(c);
    } else {
      var n := |calls| - 1;
      RunSound(g, c, calls[..n]);
      ServeSound(g, calls[n].root, RunOf(g, c, calls[..n]), calls[n].request);
    }
  }

  // A control database as it is initialised.
  function Fresh(base: int): Config {
    Config(map[1 := Revision(base, ACTIVE, Hash(map[]))], 2, map[], Some(Pointer(1, 1, None)), map[], [])
  }

  lemma FreshSound(g: Setting, base: int)
    ensures Sound(g, Fresh(base))
  {
  }

  // ---- rollback ----

  // After a rollback the active revision is new, shows what the source showed, and
  // every secret opens to the same text although it is sealed again. The revision
  // active just before becomes the last known good one; the candidate pointer and the
  // consumers' rows are left alone.
  lemma RollbackRestores(g: Setting, root: Option<string>, c: Config, header: IfMatch, source: int)
    requires Sound(g, c) && RollbackConfiguration(g, root, c, header, source).1 == Done
    ensures var after := RollbackConfiguration(g, root, c, header, source).0;
            && after.pointer.Some?
            && var n := after.pointer.value.active;
               && n !in c.revisions && (forall r :: r in c.revisions ==> r < n)
               && source in c.revisions && after.revisions[n].snapshot == c.revisions[source].snapshot
               && EffectiveValues(g, after, n) == Views(g, RowsOf(c, source))
               && RowsOf(after, n).Keys == RowsOf(c, source).Keys
               && (forall k :: k in RowsOf(c, source) ==>
                     SameContent(g, root, source, RowsOf(c, source)[k], n, RowsOf(after, n)[k], k))
               && (c.pointer.Some? ==> after.pointer.value.lastKnownGood == c.pointer.value.active &&
                                       after.pointer.value.candidate == c.pointer.value.candidate)
               && after.consumers == c.consumers
  {
    hide SomeReads;
    hide Copies;
    hide RowsSound;
    hide SameContent;
    hide Views;
    assert RevisionSound(g, c, source);
    var rows := RowsOf(c, source);
    CopiesSound(g, root, source, c.next, rows);
    ShownSame(g, root, source, c.next, rows, Copies(g, root, source, c.next, rows));
    forall r | r in c.revisions
      ensures r < c.next
    {
      assert RevisionSound(g, c, r);
    }
  }

  // When it succeeds: the precondition holds, the source exists, and each of its
  // secrets was sealed under the root key configured now. The source's state does not
  // matter.
  lemma RollbackSucceedsExactly(g: Setting, root: Option<string>, c: Config, header: IfMatch, source: int)
    requires Sound(g, c)
    ensures RollbackConfiguration(g, root, c, header, source).1 == Done <==>
              && header == Names(Current(c))
              && source in c.revisions
              && forall k :: k in RowsOf(c, source) && RowsOf(c, source)[k].cipher.Some? ==>
                   root.Some? && RowsOf(c, source)[k].keyId == root
    ensures RollbackConfiguration(g, root, c, header, source).1 != Done ==>
              RollbackConfiguration(g, root, c, header, source).0 == c
  {
  }

  // Activating a revision and then rolling back to the last known good one brings the
  // earlier active view back, with the same decrypted secrets.
  lemma RollbackUndoesActivation(g: Setting, root: Option<string>, c: Config, r: int)
    requires Sound(g, c) && c.pointer.Some? && r in c.revisions && c.revisions[r].phase == VALIDATED
    requires forall k :: k in RowsOf(c, Current(c)) && RowsOf(c, Current(c))[k].cipher.Some? ==>
               root.Some? && RowsOf(c, Current(c))[k].keyId == root
    ensures var activated := ActivateConfiguration(g, c, Names(Current(c)), r);
            var undone := RollbackConfiguration(g, root, activated.0, Names(r),
              activated.0.pointer.value.lastKnownGood);
            && activated.1 == Done && undone.1 == Done
            && undone.0.pointer.Some?
            && var was, n := Current(c), Current(undone.0);
               && EffectiveValues(g, undone.0, n) == EffectiveValues(g, c, was)
               && RowsOf(undone.0, n).Keys == RowsOf(c, was).Keys
               && (forall k :: k in RowsOf(c, was) ==>
                     SameContent(g, root, was, RowsOf(c, was)[k], n, RowsOf(undone.0, n)[k], k))
               && undone.0.pointer.value.lastKnownGood == r
  {
    hide SameContent;
    hide Views;
    hide RollbackConfiguration;
    hide Acknowledged;
    hide RowsSound;
    hide SnapshotMatches;
    ActivatedSound(g, c, r);
    var activated := ActivateConfiguration(g, c, Names(Current(c)), r).0;
    RollbackSucceedsExactly(g, root, activated, Names(r), Current(c));
    RollbackRestores(g, root, activated, Names(r), Current(c));
  }

  // ---- the preview ----

  // The candidate's preview overlays it on the active revision, but once active it
  // shows its own rows alone: activation keeps what was previewed exactly when the
  // candidate configures every catalogued key that the active revision configures.
  lemma PreviewKeptExactly(g: Setting, c: Config, header: IfMatch, r: int)
    requires c.pointer.Some? && r in c.revisions && c.pointer.value.active != r
    requires ActivateConfiguration(g, c, header, r).1 == Done
    ensures EffectiveValues(g, ActivateConfiguration(g, c, header, r).0, r) == EffectiveValues(g, c, r) <==>
            forall k :: k in RowsOf(c, c.pointer.value.active) && k in g.catalog ==> k in RowsOf(c, r)
  {
    hide Acknowledged;
    hide ViewOf;
    var own, overlaid := RowsOf(c, r), EffectiveRows(c, r);
    assert EffectiveRows(ActivateConfiguration(g, c, header, r).0, r) == own;
    var kept, previewed := Views(g, own), Views(g, overlaid);
    forall k
      ensures k in previewed <==> k in kept || (k in RowsOf(c, c.pointer.value.active) && k in g.catalog)
      ensures k in kept ==> previewed[k] == kept[k]
    {
    }
    if forall k :: k in RowsOf(c, c.pointer.value.active) && k in g.catalog ==> k in RowsOf(c, r) {
      assert previewed.Keys == kept.Keys;
    } else {
      var k :| k in RowsOf(c, c.pointer.value.active) && k in g.catalog && k !in RowsOf(c, r);
      assert k in previewed && k !in kept;
    }
  }

  // ---- what validation vouches for ----

  function TextOf(row: Value): Option<string> {
    match row.cipher
    case Some(Sealed(plain, _, _)) => Some(plain)
    case Some(Blank) => Some("")
    case None => row.typed
  }

  // Every configured text of the revision meets its key's schema.
  predicate MeetsSchemas(g: Setting, rows: Values) {
    forall k :: k in rows && k in g.catalog && TextOf(rows[k]).Some? ==> g.catalog[k].accepts(TextOf(rows[k]).value)
  }

  predicate Vouched(phase: Phase) {
    phase == VALIDATED || phase == ACTIVE
  }

  ghost predicate AllVouched(g: Setting, c: Config) {
    forall r :: r in c.revisions && Vouched(c.revisions[r].phase) ==> MeetsSchemas(g, RowsOf(c, r))
  }

  lemma PassingMeets(g: Setting, root: Option<string>, revision: int, rows: Values, effective: set<Key>)
    requires AllPass(g, root, revision, rows, effective)
    ensures MeetsSchemas(g, rows)
  {
  }

  lemma SameMeets(g: Setting, root: Option<string>, from: int, to: int, a: Values, b: Values)
    requires a.Keys == b.Keys && RowsSound(g, from, a) && RowsSound(g, to, b)
    requires forall k :: k in a ==> SameContent(g, root, from, a[k], to, b[k], k)
    ensures MeetsSchemas(g, a) <==> MeetsSchemas(g, b)
  {
  }

  // A rollback does not look at the source's state or check it again: what it makes
  // active meets the schemas exactly when the source did.
  lemma RollbackVouchesExactly(g: Setting, root: Option<string>, c: Config, header: IfMatch, source: int)
    requires Sound(g, c) && AllVouched(g, c) && RollbackConfiguration(g, root, c, header, source).1 == Done
    ensures AllVouched(g, RollbackConfiguration(g, root, c, header, source).0) <==> MeetsSchemas(g, RowsOf(c, source))
  {
    var after := RollbackConfiguration(g, root, c, header, source).0;
    var n := c.next;
    RollbackSound(g, root, c, header, source);
    RollbackRestores(g, root, c, header, source);
    assert RevisionSound(g, c, source) && RevisionSound(g, after, n);
    SameMeets(g, root, source, n, RowsOf(c, source), RowsOf(after, n));
    assert forall r :: r in after.revisions ==>
        r == n || (r in c.revisions && after.revisions[r] == c.revisions[r] && RowsOf(after, r) == RowsOf(c, r));
    hide MeetsSchemas;
    hide Sound;
    hide RollbackConfiguration;
    assert after.revisions[n].phase == ACTIVE;
  }

  // A rollback that succeeds brings back texts that meet their schemas.
  ghost predicate Vouches(g: Setting, root: Option<string>, c: Config, request: Request) {
    request.Rollback? && Serve(g, root, c, request).1 == Done ==> MeetsSchemas(g, RowsOf(c, request.source))
  }

  // The exact condition for one request.
  lemma StepVouchedExactly(g: Setting, root: Option<string>, c: Config, request: Request)
    requires Sound(g, c) && AllVouched(g, c)
    ensures AllVouched(g, Serve(g, root, c, request).0) <==> Vouches(g, root, c, request)
  {
    hide MeetsSchemas;
    hide PutCandidate;
    hide ValidateCandidate;
    hide ActivateConfiguration;
    hide RollbackConfiguration;
    hide Sound;
    match request {
      case Put(header, base, items) => PutVouched(g, root, c, header, base, items);
      case Validate => ValidateVouched(g, root, c);
      case Activate(header, r) => ActivateVouched(g, c, header, r);
      case Rollback(header, source) =>
        if RollbackConfiguration(g, root, c, header, source).1 == Done {
          RollbackVouchesExactly(g, root, c, header, source);
        } else {
          RollbackSucceedsExactly(g, root, c, header, source);
        }
    }
  }

  ghost predicate VouchedThroughout(g: Setting, c: Config, calls: seq<Call>) {
    forall n :: 0 <= n <= |calls| ==> AllVouched(g, RunOf(g, c, calls[..n]))
  }

  ghost predicate VouchesAt(g: Setting, c: Config, calls: seq<Call>, n: nat)
    requires n < |calls|
  {
    Vouches(g, calls[n].root, RunOf(g, c, calls[..n]), calls[n].request)
  }

  // Over a whole run, every revision that is validated, or is or was active, meets the
  // schemas of its keys all along if and only if the source of every successful rollback
  // did.
  lemma {:induction false} RunVouchedExactly(g: Setting, c: Config, calls: seq<Call>)
    requires Sound(g, c) && AllVouched(g, c)
    ensures VouchedThroughout(g, c, calls) <==> forall n :: 0 <= n < |calls| ==> VouchesAt(g, c, calls, n)
  {
    hide Serve;
    hide Sound;
    hide AllVouched;
    hide Vouches;
    if calls == [] {
      assert calls[..0] == calls;
    } else {
      var n := |calls| - 1;
      var before := calls[..n];
      RunVouchedExactly(g, c, before);
      RunSound(g, c, before);
      assert forall k :: 0 <= k <= n ==> before[..k] == calls[..k];
      assert before[..|before|] == before && calls[..|calls|] == calls;
      assert forall k :: 0 <= k < n ==> (VouchesAt(g, c, before, k) <==> VouchesAt(g, c, calls, k));
      if VouchedThroughout(g, c, before) {
        assert AllVouched(g, RunOf(g, c, before[..|before|]));
        StepVouchedExactly(g, calls[n].root, RunOf(g, c, before), calls[n].request);
        assert AllVouched(g, RunOf(g, c, calls)) <==> VouchesAt(g, c, calls, n);
      }
      hide VouchesAt;
      assert VouchedThroughout(g, c, calls) <==> VouchedThroughout(g, c, before) && AllVouched(g, RunOf(g, c, calls));
      assert (forall k :: 0 <= k < |calls| ==> VouchesAt(g, c, calls, k)) <==>
             (forall k :: 0 <= k < n ==> VouchesAt(g, c, calls, k)) && VouchesAt(g, c, calls, n);
    }
  }

  // A rollback is careful when its source was validated or active, which the caller
  // can look up.
  predicate Careful(c: Config, request: Request) {
    request.Rollback? && request.source in c.revisions ==> Vouched(c.revisions[request.source].phase)
  }

  lemma ServeVouched(g: Setting, root: Option<string>, c: Config, request: Request)
    requires Sound(g, c) && AllVouched(g, c) && Careful(c, request)
    ensures AllVouched(g, Serve(g, root, c, request).0)
  {
    StepVouchedExactly(g, root, c, request);
    if request.Rollback? && Serve(g, root, c, request).1 == Done {
      RollbackFindsSource(g, root, c, request.header, request.source);
    }
    hide MeetsSchemas;
    hide RollbackConfiguration;
    hide Sound;
  }

  lemma RollbackFindsSource(g: Setting, root: Option<string>, c: Config, header: IfMatch, source: int)
    requires RollbackConfiguration(g, root, c, header, source).1 == Done
    ensures source in c.revisions
  {
  }

  lemma PutVouched(g: Setting, root: Option<string>, c: Config, header: IfMatch, base: int, items: seq<Item>)
    requires Sound(g, c) && AllVouched(g, c)
    ensures AllVouched(g, PutCandidate(g, root, c, header, base, items).0)
  {
    hide MeetsSchemas;
    hide Drafted;
    hide RowsSound;
    hide SnapshotMatches;
    forall r | r in c.revisions
      ensures r != c.next
    {
      assert RevisionSound(g, c, r);
    }
  }

  lemma ActivateVouched(g: Setting, c: Config, header: IfMatch, r: int)
    requires AllVouched(g, c)
    ensures AllVouched(g, ActivateConfiguration(g, c, header, r).0)
  {
    hide MeetsSchemas;
    hide Acknowledged;
  }

  lemma ValidateVouched(g: Setting, root: Option<string>, c: Config)
    requires AllVouched(g, c)
    ensures AllVouched(g, ValidateCandidate(g, root, c).0)
  {
    hide MeetsSchemas;
    var candidate := LatestCandidate(c);
    if candidate.Some? &&
      AllPass(g, root, candidate.value, RowsOf(c, candidate.value), EffectiveRows(c, candidate.value).Keys) {
      PassingMeets(g, root, candidate.value, RowsOf(c, candidate.value), EffectiveRows(c, candidate.value).Keys);
    }
    hide AllPass;
    hide SomeBreak;
  }

  ghost predicate CarefulRun(g: Setting, c: Config, calls: seq<Call>) {
    forall n :: 0 <= n < |calls| ==> Careful(RunOf(g, c, calls[..n]), calls[n].request)
  }

  // Over every run whose rollbacks name validated or active sources, every revision
  // that is or was active meets the schemas of its keys.
  lemma {:induction false} RunVouched(g: Setting, c: Config, calls: seq<Call>)
    requires Sound(g, c) && AllVouched(g, c) && CarefulRun(g, c, calls)
    ensures AllVouched(g, RunOf(g, c, calls))
  {
    hide Serve;
    hide Sound;
    hide AllVouched;
    hide Careful;
    if calls != [] {
      var n := |calls| - 1;
      forall i | 0 <= i < n
        ensures Careful(RunOf(g, c, calls[..n][..i]), calls[..n][i].request)
      {
        assert calls[..n][..i] == calls[..i];
      }
      RunSound(g, c, calls[..n]);
      RunVouched(g, c, calls[..n]);
      ServeVouched(g, calls[n].root, RunOf(g, c, calls[..n]), calls[n].request);
    }
  }

  // ---- what goes through all the same ----

  // One typed key whose schema takes one text.
  function OneKey(): Setting {
    Setting("inst", map["a" := Entry(false, 1, {}, {}, (text: string) => text == "good")])
  }

  lemma OnlyCandidate(c: Config, r: int)
    requires r in c.revisions && c.revisions[r].phase == CANDIDATE
    requires forall q :: q in c.revisions && q != r ==> c.revisions[q].phase != CANDIDATE
    ensures LatestCandidate(c) == Some(r)
  {
    assert r in InPhase(c.revisions, CANDIDATE);
  }

  // A candidate refused half way keeps the rows stored before the offending item, and
  // can be validated and activated although its request was answered with an error.
  lemma RefusedCandidateGoesLive(base: int)
    ensures var g, items := OneKey(), [Item("a", None, Some("good")), Item("b", None, Some("good"))];
            var put := PutCandidate(g, None, Fresh(base), Names(1), 1, items);
            var validated := ValidateCandidate(g, None, put.0);
            var activated := ActivateConfiguration(g, validated.0, Names(1), 2);
            && put.1 == InvalidRequest && validated.1 == Done && activated.1 == Done
            && Current(activated.0) == 2 && RowsOf(activated.0, 2).Keys == {"a"}
  {
    var g, items := OneKey(), [Item("a", None, Some("good")), Item("b", None, Some("good"))];
    assert items[..1] == [items[0]];
    assert Drafted(g, None, 2, []).error.None?;
    var first := Drafted(g, None, 2, items[..1]);
    assert first == Added(g, None, 2, Drafted(g, None, 2, items[..1][..0]), items[0]);
    assert first.rows == map["a" := TypedValue(Some("good"), OfTyped(Some("good")))];
    assert "b" != "a" by { assert "b"[0] != "a"[0]; }
    var put := PutCandidate(g, None, Fresh(base), Names(1), 1, items).0;
    assert put == Inserted(Fresh(base), Revision(1, CANDIDATE, Zeros), first.rows);
    OnlyCandidate(put, 2);
  }

  // A revision that failed validation can be rolled back to and becomes active.
  lemma FailedRevisionGoesLive(base: int)
    ensures var g, items := OneKey(), [Item("a", None, Some("bad"))];
            var put := PutCandidate(g, None, Fresh(base), Names(1), 1, items).0;
            var failed := ValidateCandidate(g, None, put).0;
            var rolled := RollbackConfiguration(g, None, failed, Names(1), 2);
            && failed.revisions[2].phase == FAILED && rolled.1 == Done
            && Current(rolled.0) == 3 && !MeetsSchemas(g, RowsOf(rolled.0, 3))
  {
    var g, items := OneKey(), [Item("a", None, Some("bad"))];
    var row := TypedValue(Some("bad"), OfTyped(Some("bad")));
    assert items[..0] == [];
    assert Drafted(g, None, 2, items).rows == map["a" := row];
    var put := PutCandidate(g, None, Fresh(base), Names(1), 1, items).0;
    OnlyCandidate(put, 2);
    assert RowsOf(put, 2)["a"] == row;
    assert "bad" != "good" by { assert |"bad"| != |"good"|; }
    assert !Passes(g, None, 2, "a", row, EffectiveRows(put, 2).Keys);
    var failed := ValidateCandidate(g, None, put).0;
    var rolled := RollbackConfiguration(g, None, failed, Names(1), 2).0;
    assert RowsOf(failed, 2) == map["a" := row];
    assert RowsOf(rolled, 3)["a"] == row;
  }
}
