// What becomes of a configuration candidate from the request that drafts it to the
// activation that serves it, told from its items.
module CandidateValidation {
  import opened Wrappers
  import opened Preconditions
  import opened Configuration
  import opened ConfigurationTheorems
  import opened CandidateRequests

  // ---- judging the items ----

  ghost predicate SecretItem(g: Setting, item: Item) {
    item.key in g.catalog && g.catalog[item.key].secret
  }

  ghost predicate SomeSecret(g: Setting, items: seq<Item>) {
    exists i :: 0 <= i < |items| && SecretItem(g, items[i])
  }

  // A secret must still open under the root key that sealed it; every text must meet its
  // key's schema, and what the key depends on must be configured. A plain item without
  // a text always fits.
  ghost predicate ItemFits(g: Setting, root: Option<string>, later: Option<string>, item: Item, keys: set<Key>) {
    && item.key in g.catalog
    && var entry := g.catalog[item.key];
       if entry.secret then
         && later == root
         && item.secret.Some? && entry.accepts(item.secret.value)
         && (forall d :: d in entry.dependencies ==> d in keys)
       else
         item.typed.Some? ==>
           entry.accepts(item.typed.value) && (forall d :: d in entry.dependencies ==> d in keys)
  }

  ghost predicate AllFit(g: Setting, root: Option<string>, later: Option<string>, items: seq<Item>, keys: set<Key>) {
    forall i :: 0 <= i < |items| ==> ItemFits(g, root, later, items[i], keys)
  }

  lemma ItemJudged(g: Setting, root: Option<string>, later: Option<string>, revision: int, item: Item, row: Value,
                   keys: set<Key>)
    requires StoredAs(g, root, revision, item, row)
    ensures Breaks(g, later, revision, item.key, row) <==> later.None? && SecretItem(g, item)
    ensures !Breaks(g, later, revision, item.key, row) ==>
              (Passes(g, later, revision, item.key, row, keys) <==> ItemFits(g, root, later, item, keys))
  {
  }

  lemma DraftJudged(g: Setting, root: Option<string>, later: Option<string>, revision: int, items: seq<Item>,
                    rows: Values, keys: set<Key>)
    requires RowsFor(g, root, revision, items, rows)
    ensures SomeBreak(g, later, revision, rows) <==> later.None? && SomeSecret(g, items)
    ensures !SomeBreak(g, later, revision, rows) ==>
              (AllPass(g, later, revision, rows, keys) <==> AllFit(g, root, later, items, keys))
  {
    hide Breaks;
    hide Passes;
    hide StoredAs;
    hide ItemFits;
    hide SecretItem;
    forall i | 0 <= i < |items|
      ensures items[i].key in rows && items[i].key in g.catalog
      ensures Breaks(g, later, revision, items[i].key, rows[items[i].key]) <==>
              later.None? && SecretItem(g, items[i])
      ensures !Breaks(g, later, revision, items[i].key, rows[items[i].key]) ==>
                (Passes(g, later, revision, items[i].key, rows[items[i].key], keys) <==>
                 ItemFits(g, root, later, items[i], keys))
    {
      StoredInCatalog(g, root, revision, items[i], rows[items[i].key]);
      ItemJudged(g, root, later, revision, items[i], rows[items[i].key], keys);
    }
    if SomeBreak(g, later, revision, rows) {
      var k :| k in rows && Breaks(g, later, revision, k, rows[k]);
      var i :| 0 <= i < |items| && items[i].key == k;
    }
    if !SomeBreak(g, later, revision, rows) && AllFit(g, root, later, items, keys) {
      forall k | k in rows
        ensures k in g.catalog && Passes(g, later, revision, k, rows[k], keys)
      {
        var i :| 0 <= i < |items| && items[i].key == k;
        assert ItemFits(g, root, later, items[i], keys);
      }
    }
  }

  lemma StoredInCatalog(g: Setting, root: Option<string>, revision: int, item: Item, row: Value)
    requires StoredAs(g, root, revision, item, row)
    ensures item.key in g.catalog
  {
  }

  // ---- the candidate of an accepted request ----

  ghost function KeysOf(items: seq<Item>): set<Key> {
    set i | 0 <= i < |items| :: items[i].key
  }

  lemma AcceptedPut(g: Setting, root: Option<string>, c: Config, header: IfMatch, base: int, items: seq<Item>)
    requires Sound(g, c) && PutCandidate(g, root, c, header, base, items).1 == Done
    ensures var put := PutCandidate(g, root, c, header, base, items).0;
            && put.pointer.Some? && c.pointer.Some? && base == c.pointer.value.active
            && put.pointer.value == c.pointer.value.(candidate := Some(c.next))
            && c.next !in c.revisions && base != c.next
            && put.revisions.Keys == c.revisions.Keys + {c.next}
            && put.revisions[c.next].phase == CANDIDATE
            && RowsFor(g, root, c.next, items, RowsOf(put, c.next))
            && RowsOf(put, base) == RowsOf(c, base)
            && LatestCandidate(put) == Some(c.next)
  {
    PutAnswerExactly(g, root, c, header, base, items);
    DraftStored(g, root, c.next, items);
    hide Drafted;
    hide RowsFor;
    hide AllStorable;
    var put := PutCandidate(g, root, c, header, base, items).0;
    forall r | r in c.revisions
      ensures r < c.next
    {
      assert RevisionSound(g, c, r);
    }
    assert c.next in InPhase(put.revisions, CANDIDATE);
  }

  lemma OverlayKeys(g: Setting, root: Option<string>, c: Config, revision: int, items: seq<Item>)
    requires c.pointer.Some? && revision != c.pointer.value.active
    requires RowsFor(g, root, revision, items, RowsOf(c, revision))
    ensures EffectiveRows(c, revision).Keys == RowsOf(c, c.pointer.value.active).Keys + KeysOf(items)
  {
    hide StoredAs;
    forall k
      ensures k in RowsOf(c, revision) <==> k in KeysOf(items)
    {
      if k in RowsOf(c, revision) {
        var i :| 0 <= i < |items| && items[i].key == k;
      }
    }
  }

  // Validation of the candidate an accepted request drafted: an exception exactly when it
  // holds a secret and no root key is left; otherwise the candidate becomes VALIDATED
  // when all of its items fit, and FAILED when one does not.
  lemma CandidateJudgedExactly(g: Setting, root: Option<string>, later: Option<string>, c: Config, header: IfMatch,
                               base: int, items: seq<Item>)
    requires Sound(g, c) && PutCandidate(g, root, c, header, base, items).1 == Done
    ensures var put := PutCandidate(g, root, c, header, base, items).0;
            var (after, answer) := ValidateCandidate(g, later, put);
            var fits := AllFit(g, root, later, items, RowsOf(c, base).Keys + KeysOf(items));
            && answer == (if later.None? && SomeSecret(g, items) then Crashed else Done)
            && (answer == Crashed ==> after == put)
            && (answer == Done ==>
                  && c.next in put.revisions
                  && after.revisions ==
                       put.revisions[c.next := put.revisions[c.next].(phase := if fits then VALIDATED else FAILED)]
                  && after.values == put.values && after.pointer == put.pointer && after.consumers == put.consumers
                  && after.audit ==
                       put.audit + [Event(if fits then "CONFIG_VALIDATED" else "CONFIG_FAILED", c.next)])
  {
    AcceptedPut(g, root, c, header, base, items);
    var put := PutCandidate(g, root, c, header, base, items).0;
    OverlayKeys(g, root, put, c.next, items);
    DraftJudged(g, root, later, c.next, items, RowsOf(put, c.next), EffectiveRows(put, c.next).Keys);
    hide PutCandidate;
    hide RowsFor;
    hide SomeBreak;
    hide AllPass;
    hide AllFit;
    hide SomeSecret;
    hide EffectiveRows;
    hide Sound;
  }

  // ---- from the request to what is served ----

  // A candidate all of whose items fit goes live when it is activated, whoever consumes
  // it: the active revision then holds exactly those items, and every secret opens to
  // the text it was put with.
  lemma FittingCandidateServes(g: Setting, root: Option<string>, c: Config, header: IfMatch, base: int,
                               items: seq<Item>)
    requires Sound(g, c) && PutCandidate(g, root, c, header, base, items).1 == Done
    requires AllFit(g, root, root, items, RowsOf(c, base).Keys + KeysOf(items))
    ensures var put := PutCandidate(g, root, c, header, base, items).0;
            var validated := ValidateCandidate(g, root, put).0;
            var (after, answer) := ActivateConfiguration(g, validated, Names(base), c.next);
            && answer == Done && Current(after) == c.next
            && after.pointer.Some? && after.pointer.value.lastKnownGood == base
            && RowsOf(after, c.next).Keys == KeysOf(items)
            && forall i :: 0 <= i < |items| ==> Serves(g, root, c.next, items[i], RowsOf(after, c.next))
  {
    hide PutCandidate;
    hide ValidateCandidate;
    hide ActivateConfiguration;
    hide AllFit;
    hide SomeSecret;
    hide RowsFor;
    hide AllStorable;
    hide LatestCandidate;
    hide KeysOf;
    hide Serves;
    hide Sound;
    AcceptedPut(g, root, c, header, base, items);
    CandidateJudgedExactly(g, root, root, c, header, base, items);
    PutAnswerExactly(g, root, c, header, base, items);
    SecretsSealed(g, root, items);
    var put := PutCandidate(g, root, c, header, base, items).0;
    Activates(g, ValidateCandidate(g, root, put).0, base, c.next);
    RowsServe(g, root, c.next, items, RowsOf(put, c.next));
  }

  lemma Activates(g: Setting, c: Config, base: int, r: int)
    requires c.pointer.Some? && c.pointer.value.active == base != r
    requires r in c.revisions && c.revisions[r].phase == VALIDATED
    ensures var (after, answer) := ActivateConfiguration(g, c, Names(base), r);
            && answer == Done && Current(after) == r && after.values == c.values
            && after.pointer.Some? && after.pointer.value.lastKnownGood == base
  {
    hide Acknowledged;
    hide Consumers;
  }

  lemma SecretsSealed(g: Setting, root: Option<string>, items: seq<Item>)
    requires AllStorable(g, root, items)
    ensures SomeSecret(g, items) ==> root.Some?
  {
    if SomeSecret(g, items) {
      var i :| 0 <= i < |items| && SecretItem(g, items[i]);
      assert Storable(g, root, items, i);
    }
  }

  // The stored row gives back the item's text.
  ghost predicate Serves(g: Setting, root: Option<string>, revision: int, item: Item, rows: Values) {
    && item.key in rows && item.key in g.catalog
    && var row := rows[item.key];
       if g.catalog[item.key].secret then
         && item.secret.Some? && row.cipher.Some? && row.typed.None?
         && Open(root, row.cipher.value, AadOf(g, revision, item.key), row.keyId) == Opened(item.secret.value)
       else row.cipher.None? && row.typed == item.typed
  }

  lemma RowsServe(g: Setting, root: Option<string>, revision: int, items: seq<Item>, rows: Values)
    requires RowsFor(g, root, revision, items, rows)
    ensures rows.Keys == KeysOf(items)
    ensures forall i :: 0 <= i < |items| ==> Serves(g, root, revision, items[i], rows)
  {
    forall i | 0 <= i < |items|
      ensures Serves(g, root, revision, items[i], rows)
    {
      assert StoredAs(g, root, revision, items[i], rows[items[i].key]);
    }
    hide StoredAs;
    hide Serves;
    forall k
      ensures k in rows <==> k in KeysOf(items)
    {
      if k in rows {
        var i :| 0 <= i < |items| && items[i].key == k;
      }
    }
  }

  // ---- secrets ----

  // A stored secret opens in its own place only: put in the row of another key or
  // revision, or read under another root key, it never does.
  lemma SecretBoundToPlace(g: Setting, root: Option<string>, c: Config, r: int, k: Key, other: int, at: Key)
    requires Sound(g, c) && r in c.revisions && k in RowsOf(c, r) && RowsOf(c, r)[k].cipher.Some? && at in g.catalog
    ensures var row := RowsOf(c, r)[k];
            && k in g.catalog && row.cipher.value.Sealed?
            && (Open(root, row.cipher.value, AadOf(g, other, at), row.keyId).Opened? <==>
                  other == r && at == k && root.Some? && row.keyId == root)
            && (Open(root, row.cipher.value, AadOf(g, r, k), row.keyId).Opened? ==>
                  row.digest == OfSecret(Open(root, row.cipher.value, AadOf(g, r, k), row.keyId).plain))
  {
    assert RevisionSound(g, c, r);
    assert RowSound(g, r, k, RowsOf(c, r)[k]);
  }

  // No view of any revision shows the text of a secret; a plain text it shows as it is.
  // The preview of a candidate shows the candidate's rows over the active ones.
  lemma ViewsExactly(g: Setting, c: Config, r: int, k: Key)
    requires Sound(g, c) && c.pointer.Some? && r in c.revisions && k in g.catalog
    ensures var views, active := EffectiveValues(g, c, r), RowsOf(c, c.pointer.value.active);
            var own := RowsOf(c, r);
            && (k in views <==> k in own || k in active)
            && (k in views ==>
                  var row := if k in own then own[k] else active[k];
                  && (g.catalog[k].secret || row.cipher.Some? ==> views[k].shown.None?)
                  && (!g.catalog[k].secret && row.cipher.None? ==> views[k].shown == row.typed)
                  && (views[k].configured <==> row.cipher.Some? || row.typed.Some?))
  {
    hide Sound;
  }
}
