// How a request for a configuration candidate is answered, item by item, and what a
// refused one leaves behind.
module CandidateRequests {
  import opened Wrappers
  import opened Preconditions
  import opened Configuration
  import opened ConfigurationTheorems
  import Totals

  // ---- one item ----

  // The key is unknown or repeated, or a secret comes without its text.
  ghost predicate Unfit(g: Setting, items: seq<Item>, i: nat)
    requires i < |items|
  {
    || items[i].key !in g.catalog
    || Repeated(items, i)
    || (g.catalog[items[i].key].secret && items[i].secret.None?)
  }

  ghost predicate Repeated(items: seq<Item>, i: nat)
    requires i < |items|
  {
    exists j :: 0 <= j < i && items[j].key == items[i].key
  }

  ghost predicate Sealable(g: Setting, root: Option<string>, item: Item) {
    item.key in g.catalog && g.catalog[item.key].secret ==> root.Some?
  }

  ghost predicate Storable(g: Setting, root: Option<string>, items: seq<Item>, i: nat)
    requires i < |items|
  {
    !Unfit(g, items, i) && Sealable(g, root, items[i])
  }

  ghost predicate AllStorable(g: Setting, root: Option<string>, items: seq<Item>) {
    forall i :: 0 <= i < |items| ==> Storable(g, root, items, i)
  }

  // The first item that cannot be stored is unfit.
  ghost predicate RefusedAt(g: Setting, root: Option<string>, items: seq<Item>, i: nat) {
    i < |items| && AllStorable(g, root, items[..i]) && Unfit(g, items, i)
  }

  // The first item that cannot be stored is a fit secret without a root key.
  ghost predicate RaisesAt(g: Setting, root: Option<string>, items: seq<Item>, i: nat) {
    i < |items| && AllStorable(g, root, items[..i]) && !Unfit(g, items, i) && !Sealable(g, root, items[i])
  }

  // The row an item is stored as.
  ghost predicate StoredAs(g: Setting, root: Option<string>, revision: int, item: Item, row: Value) {
    && item.key in g.catalog
    && if g.catalog[item.key].secret then
         && item.secret.Some? && root.Some?
         && row == SecretValue(g, root.value, revision, item.key, item.secret.value, OfSecret(item.secret.value))
       else row == TypedValue(item.typed, OfTyped(item.typed))
  }

  // Exactly the rows of these items.
  ghost predicate RowsFor(g: Setting, root: Option<string>, revision: int, items: seq<Item>, rows: Values) {
    && (forall i :: 0 <= i < |items| ==>
           items[i].key in rows && StoredAs(g, root, revision, items[i], rows[items[i].key]))
    && (forall k :: k in rows ==> exists i :: 0 <= i < |items| && items[i].key == k)
  }

  // ---- drafts ----

  lemma StorablePrefix(g: Setting, root: Option<string>, items: seq<Item>, n: nat)
    requires n <= |items|
    ensures AllStorable(g, root, items[..n]) <==> forall i :: 0 <= i < n ==> Storable(g, root, items, i)
  {
    forall i | 0 <= i < n
      ensures Storable(g, root, items[..n], i) <==> Storable(g, root, items, i)
    {
      assert Repeated(items[..n], i) <==> Repeated(items, i);
    }
  }

  lemma {:induction false} DraftStored(g: Setting, root: Option<string>, revision: int, items: seq<Item>)
    requires AllStorable(g, root, items)
    ensures Drafted(g, root, revision, items).error.None?
    ensures RowsFor(g, root, revision, items, Drafted(g, root, revision, items).rows)
  {
    if items != [] {
      var n := |items| - 1;
      StorablePrefix(g, root, items, n);
      DraftStored(g, root, revision, items[..n]);
      assert Storable(g, root, items, n);
      var d := Drafted(g, root, revision, items[..n]);
      assert !Repeated(items, n);
      assert forall j :: 0 <= j < n ==> items[..n][j].key == items[j].key != items[n].key;
      StoredStep(g, root, revision, items, d);
    }
  }

  lemma StoredStep(g: Setting, root: Option<string>, revision: int, items: seq<Item>, d: Draft)
    requires items != [] && Storable(g, root, items, |items| - 1)
    requires d.error.None? && items[|items| - 1].key !in d.rows
    requires RowsFor(g, root, revision, items[..|items| - 1], d.rows)
    ensures var after := Added(g, root, revision, d, items[|items| - 1]);
            after.error.None? && RowsFor(g, root, revision, items, after.rows)
  {
    var n := |items| - 1;
    var after := Added(g, root, revision, d, items[n]);
    forall i | 0 <= i < |items|
      ensures items[i].key in after.rows && StoredAs(g, root, revision, items[i], after.rows[items[i].key])
    {
      if i < n { assert items[..n][i] == items[i]; }
    }
    forall k | k in after.rows
      ensures exists i :: 0 <= i < |items| && items[i].key == k
    {
      if k == items[n].key {
        assert items[n].key == k;
      } else {
        var i :| 0 <= i < n && items[..n][i].key == k;
        assert items[i].key == k;
      }
    }
  }

  // The item that stops the request decides the answer; the items before it are stored.
  lemma DraftStopped(g: Setting, root: Option<string>, revision: int, items: seq<Item>, i: nat)
    requires RefusedAt(g, root, items, i) || RaisesAt(g, root, items, i)
    ensures var d := Drafted(g, root, revision, items);
            && d.error == Some(if RefusedAt(g, root, items, i) then InvalidRequest else Crashed)
            && RowsFor(g, root, revision, items[..i], d.rows)
  {
    DraftStored(g, root, revision, items[..i]);
    var d := Drafted(g, root, revision, items[..i]);
    assert items[i].key in d.rows <==> Repeated(items, i) by {
      if Repeated(items, i) {
        var j :| 0 <= j < i && items[j].key == items[i].key;
        assert items[..i][j].key in d.rows;
      }
      if items[i].key in d.rows {
        var j :| 0 <= j < i && items[..i][j].key == items[i].key;
        assert items[j].key == items[i].key;
      }
    }
    DraftStep(g, root, revision, items, i);
    ErrorSticks(g, root, revision, items, i + 1);
  }

  lemma {:induction false} FirstStop(g: Setting, root: Option<string>, items: seq<Item>) returns (i: nat)
    requires !AllStorable(g, root, items)
    ensures RefusedAt(g, root, items, i) || RaisesAt(g, root, items, i)
  {
    var n := |items| - 1;
    StorablePrefix(g, root, items, n);
    if AllStorable(g, root, items[..n]) {
      i := n;
    } else {
      i := FirstStop(g, root, items[..n]);
      assert items[..n][..i] == items[..i];
      assert Repeated(items[..n], i) <==> Repeated(items, i);
    }
  }

  // The answer, exactly: accepted when every item can be stored, refused when the first
  // that cannot is unfit, an exception when it is a fit secret without a root key.
  lemma DraftAnswer(g: Setting, root: Option<string>, revision: int, items: seq<Item>)
    ensures var error := Drafted(g, root, revision, items).error;
            && error in {None, Some(InvalidRequest), Some(Crashed)}
            && (error == None <==> AllStorable(g, root, items))
            && (error == Some(InvalidRequest) <==> exists i: nat :: RefusedAt(g, root, items, i))
            && (error == Some(Crashed) <==> exists i: nat :: RaisesAt(g, root, items, i))
  {
    if AllStorable(g, root, items) {
      DraftStored(g, root, revision, items);
      assert forall i :: 0 <= i < |items| ==> Storable(g, root, items, i);
    } else {
      var i := FirstStop(g, root, items);
    }
    forall i: nat | RefusedAt(g, root, items, i) || RaisesAt(g, root, items, i)
      ensures Drafted(g, root, revision, items).error ==
              Some(if RefusedAt(g, root, items, i) then InvalidRequest else Crashed)
    {
      DraftStopped(g, root, revision, items, i);
    }
  }

  // ---- requests ----

  // A request against the active revision is refused as invalid exactly when its first
  // item that cannot be stored is unfit. Of all requests that are not accepted, that is
  // the one kind that changes the tables.
  lemma PutAnswerExactly(g: Setting, root: Option<string>, c: Config, header: IfMatch, base: int, items: seq<Item>)
    ensures var put := PutCandidate(g, root, c, header, base, items);
            && (put.1 == InvalidRequest <==>
                  && c.pointer.Some? && header == Names(c.pointer.value.active) && base == c.pointer.value.active
                  && exists i: nat :: RefusedAt(g, root, items, i))
            && (put.1 == Done <==>
                  && c.pointer.Some? && header == Names(c.pointer.value.active) && base == c.pointer.value.active
                  && AllStorable(g, root, items))
            && (put.1 != Done ==> (put.0 == c <==> put.1 != InvalidRequest))
  {
    hide Drafted;
    DraftAnswer(g, root, c.next, items);
    hide AllStorable;
    hide RefusedAt;
    hide RaisesAt;
  }

  // What it leaves: a candidate holding exactly the rows of the items before the one
  // that stopped it, which is the latest candidate; the pointer and every other
  // revision are untouched.
  lemma RefusedPutStays(g: Setting, root: Option<string>, c: Config, header: IfMatch, base: int, items: seq<Item>,
                        i: nat)
    requires Sound(g, c) && PutCandidate(g, root, c, header, base, items).1 == InvalidRequest
    requires RefusedAt(g, root, items, i)
    ensures var after := PutCandidate(g, root, c, header, base, items).0;
            && after.revisions == c.revisions[c.next := Revision(base, CANDIDATE, Zeros)]
            && RowsFor(g, root, c.next, items[..i], RowsOf(after, c.next))
            && (forall r :: r in c.revisions ==> r != c.next && RowsOf(after, r) == RowsOf(c, r))
            && after.pointer == c.pointer
            && LatestCandidate(after) == Some(c.next)
  {
    hide Drafted;
    hide RowsFor;
    hide RefusedAt;
    DraftStopped(g, root, c.next, items, i);
    var after := PutCandidate(g, root, c, header, base, items).0;
    forall r | r in c.revisions
      ensures r < c.next
    {
      assert RevisionSound(g, c, r);
    }
    assert c.next in InPhase(after.revisions, CANDIDATE);
  }

  // The next validation judges it, like any other candidate, whatever root key is
  // configured by then; when it passes, it can be activated, and then those rows are
  // the active ones.
  lemma RefusedPutIsJudged(g: Setting, root: Option<string>, later: Option<string>, c: Config, header: IfMatch,
                           base: int,
                           items: seq<Item>, i: nat)
    requires Sound(g, c) && PutCandidate(g, root, c, header, base, items).1 == InvalidRequest
    requires RefusedAt(g, root, items, i)
    ensures var put := PutCandidate(g, root, c, header, base, items).0;
            var rows := RowsOf(put, c.next);
            var validated := ValidateCandidate(g, later, put);
            && RowsFor(g, root, c.next, items[..i], rows)
            && c.next in put.revisions
            && (if SomeBreak(g, later, c.next, rows) then validated == (put, Crashed)
                else validated ==
                       (Judged(put, c.next, AllPass(g, later, c.next, rows, EffectiveRows(put, c.next).Keys)), Done))
            && (!SomeBreak(g, later, c.next, rows) &&
                 AllPass(g, later, c.next, rows, EffectiveRows(put, c.next).Keys) ==>
                  var activated := ActivateConfiguration(g, validated.0, Names(base), c.next);
                  activated.1 == Done && Current(activated.0) == c.next && RowsOf(activated.0, c.next) == rows)
  {
    RefusedPutStays(g, root, c, header, base, items, i);
    PutAnswerExactly(g, root, c, header, base, items);
    hide PutCandidate;
    hide Drafted;
    hide RowsFor;
    hide RefusedAt;
    hide AllPass;
    hide SomeBreak;
    hide Acknowledged;
    hide Sound;
  }
}
