// Configuration revisions: candidate, validation, activation and rollback, as
// sequential transactions. A problem answer commits what was written before it; an
// exception undoes the transaction.
module Configuration {
  import opened Wrappers
  import opened Preconditions
  import Totals

  type Key = string

  // ---- sealed secrets ----

  // What a ciphertext is bound to.
  datatype Aad = Aad(installation: string, key: Key, revision: int, schema: int)

  // AES-GCM is modelled by what its ciphertext determines; Blank is the empty
  // envelope of a key that has left the catalog.
  datatype Envelope = Sealed(plain: string, aad: Aad, root: string) | Blank

  datatype Opening = Opened(plain: string) | Unavailable | Raised

  // accepts is the verdict of the key's JSON schema on a stored text.
  datatype Entry = Entry(secret: bool, schema: int, consumers: set<string>, dependencies: set<Key>,
                         accepts: string -> bool)

  // The catalog is seeded once and never changes.
  datatype Setting = Setting(installation: string, catalog: map<Key, Entry>)

  datatype ValueDigest = OfSecret(plain: string) | OfTyped(typed: Option<string>)

  datatype Value = Value(typed: Option<string>, cipher: Option<Envelope>, keyId: Option<string>, digest: ValueDigest)

  type Values = map<Key, Value>

  function AadOf(g: Setting, revision: int, k: Key): Aad
    requires k in g.catalog
  {
    Aad(g.installation, k, revision, g.catalog[k].schema)
  }

  // root is the configured key id, absent when no usable key is configured. A wrong
  // key id and an envelope too short for a nonce are value errors; a failed tag is not.
  function Open(root: Option<string>, envelope: Envelope, aad: Aad, keyId: Option<string>): Opening {
    if root.None? then Raised
    else if keyId.Some? && keyId != root then Unavailable
    else if envelope.Blank? then Unavailable
    else if envelope.root != root.value || envelope.aad != aad then Raised
    else Opened(envelope.plain)
  }

  function SecretValue(g: Setting, root: string, revision: int, k: Key, plain: string, digest: ValueDigest): Value
    requires k in g.catalog
  {
    Value(None, Some(Sealed(plain, AadOf(g, revision, k), root)), Some(root), digest)
  }

  function TypedValue(typed: Option<string>, digest: ValueDigest): Value {
    Value(typed, None, None, digest)
  }

  function BlankValue(digest: ValueDigest): Value {
    Value(None, Some(Blank), None, digest)
  }

  // ---- tables ----

  datatype Shown = Masked | Plain(typed: Option<string>)

  datatype Snapshot = Zeros | Hash(content: map<Key, Shown>)

  datatype Phase = CANDIDATE | VALIDATED | FAILED | ACTIVE

  datatype Revision = Revision(base: int, phase: Phase, snapshot: Snapshot)

  datatype Pointer = Pointer(active: int, lastKnownGood: int, candidate: Option<int>)

  datatype Consumer = Consumer(desired: int, applied: Option<int>, acked: bool, error: Option<string>)

  datatype Event = Event(name: string, revision: int)

  datatype Config = Config(
    revisions: map<int, Revision>,
    next: int,
    values: map<int, Values>,
    pointer: Option<Pointer>,
    consumers: map<string, Consumer>,
    audit: seq<Event>
  )

  function RowsOf(c: Config, revision: int): Values {
    if revision in c.values then c.values[revision] else map[]
  }

  function InPhase(revisions: map<int, Revision>, phase: Phase): set<int> {
    set r | r in revisions && revisions[r].phase == phase
  }

  function LatestCandidate(c: Config): (r: Option<int>)
    ensures r.Some? ==> r.value in c.revisions && c.revisions[r.value].phase == CANDIDATE
  {
    Totals.Greatest(InPhase(c.revisions, CANDIDATE))
  }

  // ---- views ----

  datatype View = View(secret: bool, configured: bool, shown: Option<string>, hint: bool)

  function ViewOf(entry: Entry, row: Value): View {
    var secret := entry.secret || row.cipher.Some?;
    View(entry.secret, row.cipher.Some? || row.typed.Some?,
         if secret then None else row.typed, secret && row.cipher.Some?)
  }

  // The active revision shows its own rows; any other revision overlays the active one's.
  function EffectiveRows(c: Config, revision: int): Values {
    if c.pointer.Some? && revision != c.pointer.value.active
    then RowsOf(c, c.pointer.value.active) + RowsOf(c, revision)
    else RowsOf(c, revision)
  }

  function Views(g: Setting, rows: Values): map<Key, View> {
    map k | k in rows && k in g.catalog :: ViewOf(g.catalog[k], rows[k])
  }

  function EffectiveValues(g: Setting, c: Config, revision: int): map<Key, View> {
    Views(g, EffectiveRows(c, revision))
  }

  // ---- requests ----

  datatype Outcome = Done | NotFound | Refused(mismatch: Mismatch) | InvalidRequest |
                     NotValidated | SecretUnavailable | Crashed

  datatype Item = Item(key: Key, secret: Option<string>, typed: Option<string>)

  datatype Request =
    | Put(header: IfMatch, base: int, items: seq<Item>)
    | Validate
    | Activate(header: IfMatch, revision: int)
    | Rollback(header: IfMatch, source: int)

  function Current(c: Config): int {
    if c.pointer.Some? then c.pointer.value.active else 1
  }

  function Logged(c: Config, name: string, revision: int): Config {
    c.(audit := c.audit + [Event(name, revision)])
  }

  // ---- candidate ----

  datatype Draft = Draft(rows: Values, shown: map<Key, Shown>, error: Option<Outcome>)

  function Added(g: Setting, root: Option<string>, revision: int, d: Draft, item: Item): Draft {
    if d.error.Some? then d
    else if item.key in d.rows || item.key !in g.catalog then d.(error := Some(InvalidRequest))
    else if g.catalog[item.key].secret then
      if item.secret.None? then d.(error := Some(InvalidRequest))
      else if root.None? then d.(error := Some(Crashed))
      else
        var plain := item.secret.value;
        d.(rows := d.rows[item.key := SecretValue(g, root.value, revision, item.key, plain, OfSecret(plain))],
           shown := d.shown[item.key := Masked])
    else
      d.(rows := d.rows[item.key := TypedValue(item.typed, OfTyped(item.typed))],
         shown := d.shown[item.key := Plain(item.typed)])
  }

  function Drafted(g: Setting, root: Option<string>, revision: int, items: seq<Item>): Draft {
    if items == [] then Draft(map[], map[], None)
    else Added(g, root, revision, Drafted(g, root, revision, items[..|items| - 1]), items[|items| - 1])
  }

  function Inserted(c: Config, row: Revision, rows: Values): Config {
    c.(revisions := c.revisions[c.next := row], values := c.values[c.next := rows], next := c.next + 1)
  }

  function PutCandidate(g: Setting, root: Option<string>, c: Config, header: IfMatch, base: int,
                        items: seq<Item>): (Config, Outcome) {
    var mismatch := Precondition(header, Current(c));
    if mismatch.Some? then (c, Refused(mismatch.value))
    else if c.pointer.None? || base != c.pointer.value.active then (c, Refused(RevisionMismatch))
    else
      var d := Drafted(g, root, c.next, items);
      if d.error == Some(Crashed) then (c, Crashed)
      else if d.error.Some? then (Inserted(c, Revision(base, CANDIDATE, Zeros), d.rows), d.error.value)
      else
        var after := Inserted(c, Revision(base, CANDIDATE, Hash(d.shown)), d.rows);
        (Logged(after.(pointer := Some(c.pointer.value.(candidate := Some(c.next)))), "CONFIG_CANDIDATE", c.next), Done)
  }

  // ---- validation ----

  // Whether checking a candidate's row raises something the handler does not catch.
  predicate Breaks(g: Setting, root: Option<string>, revision: int, k: Key, row: Value) {
    k !in g.catalog || (row.cipher.Some? && Open(root, row.cipher.value, AadOf(g, revision, k), row.keyId).Raised?)
  }

  lemma BreaksNot(g: Setting, root: Option<string>, revision: int, k: Key, row: Value)
    requires !Breaks(g, root, revision, k, row)
    ensures k in g.catalog
  {
  }

  predicate Fits(entry: Entry, text: string, effective: set<Key>) {
    entry.accepts(text) && entry.dependencies <= effective
  }

  predicate Passes(g: Setting, root: Option<string>, revision: int, k: Key, row: Value, effective: set<Key>)
    requires k in g.catalog
  {
    if row.cipher.Some? then
      var opening := Open(root, row.cipher.value, AadOf(g, revision, k), row.keyId);
      opening.Opened? && Fits(g.catalog[k], opening.plain, effective)
    else row.typed.Some? ==> Fits(g.catalog[k], row.typed.value, effective)
  }

  predicate SomeBreak(g: Setting, root: Option<string>, revision: int, rows: Values) {
    exists k :: k in rows && Breaks(g, root, revision, k, rows[k])
  }

  predicate AllPass(g: Setting, root: Option<string>, revision: int, rows: Values, effective: set<Key>)
  {
    forall k :: k in rows ==> k in g.catalog && Passes(g, root, revision, k, rows[k], effective)
  }

  function Judged(c: Config, r: int, valid: bool): Config
    requires r in c.revisions
  {
    Logged(c.(revisions := c.revisions[r := c.revisions[r].(phase := if valid then VALIDATED else FAILED)]),
           if valid then "CONFIG_VALIDATED" else "CONFIG_FAILED", r)
  }

  function ValidateCandidate(g: Setting, root: Option<string>, c: Config): (Config, Outcome) {
    var candidate := LatestCandidate(c);
    if candidate.None? then (c, NotFound)
    else
      var r := candidate.value;
      var rows := RowsOf(c, r);
      if SomeBreak(g, root, r, rows) then (c, Crashed)
      else (Judged(c, r, AllPass(g, root, r, rows, EffectiveRows(c, r).Keys)), Done)
  }

  // ---- activation ----

  function Consumers(catalog: map<Key, Entry>): set<string> {
    set k, x | k in catalog && x in catalog[k].consumers :: x
  }

  function Acknowledged(consumers: map<string, Consumer>, names: set<string>, r: int): map<string, Consumer> {
    map x | x in consumers.Keys + names ::
      if x !in names then consumers[x]
      else Consumer(r, Some(r), true, if x in consumers then consumers[x].error else None)
  }

  function Activated(g: Setting, c: Config, r: int): Config
    requires r in c.revisions
  {
    Logged(c.(pointer := Some(Pointer(r, if c.pointer.Some? then c.pointer.value.active else r, None)),
              revisions := c.revisions[r := c.revisions[r].(phase := ACTIVE)],
              consumers := Acknowledged(c.consumers, Consumers(g.catalog), r)), "CONFIG_ACTIVATED", r)
  }

  predicate AlreadyActive(c: Config, r: int) {
    r in c.revisions && c.pointer.Some? && c.pointer.value.active == r && c.revisions[r].phase == ACTIVE
  }

  // The HTTP handler's path.
  function ActivateConfiguration(g: Setting, c: Config, header: IfMatch, r: int): (Config, Outcome) {
    var mismatch := Precondition(header, Current(c));
    if mismatch.Some? then (c, Refused(mismatch.value))
    else if AlreadyActive(c, r) then (c, Done)
    else if r !in c.revisions || c.revisions[r].phase != VALIDATED then (c, NotValidated)
    else (Activated(g, c, r), Done)
  }

  // ---- rollback ----

  // What a rollback reads out of a row's envelope. A key without a catalog row reads
  // as the empty text.
  function Plaintext(g: Setting, root: Option<string>, source: int, k: Key, row: Value): Opening
    requires row.cipher.Some?
  {
    if k in g.catalog then Open(root, row.cipher.value, AadOf(g, source, k), row.keyId) else Opened("")
  }

  function Copied(g: Setting, root: Option<string>, source: int, revision: int, k: Key, row: Value): Value {
    if row.cipher.None? then TypedValue(row.typed, row.digest)
    else if k in g.catalog && root.Some? && Plaintext(g, root, source, k, row).Opened? then
      SecretValue(g, root.value, revision, k, Plaintext(g, root, source, k, row).plain, row.digest)
    else BlankValue(row.digest)
  }

  function Copies(g: Setting, root: Option<string>, source: int, revision: int, rows: Values): Values {
    map k | k in rows :: Copied(g, root, source, revision, k, rows[k])
  }

  predicate SomeReads(g: Setting, root: Option<string>, source: int, rows: Values, how: Opening) {
    exists k :: k in rows && rows[k].cipher.Some? && Plaintext(g, root, source, k, rows[k]) == how
  }

  function RollbackConfiguration(g: Setting, root: Option<string>, c: Config, header: IfMatch,
                                 source: int): (Config, Outcome) {
    var mismatch := Precondition(header, Current(c));
    if mismatch.Some? then (c, Refused(mismatch.value))
    else if source !in c.revisions then (c, NotFound)
    else
      var rows := RowsOf(c, source);
      if SomeReads(g, root, source, rows, Raised) then (c, Crashed)
      else if SomeReads(g, root, source, rows, Unavailable) then (c, SecretUnavailable)
      else
        var n := c.next;
        var after := Inserted(c, Revision(Current(c), ACTIVE, c.revisions[source].snapshot),
                              Copies(g, root, source, n, rows));
        var pointer := if c.pointer.Some? then c.pointer.value.(lastKnownGood := c.pointer.value.active, active := n)
                       else Pointer(n, n, None);
        (Logged(after.(pointer := Some(pointer)), "CONFIG_ROLLED_BACK", n), Done)
  }

  function Serve(g: Setting, root: Option<string>, c: Config, request: Request): (Config, Outcome) {
    match request
    case Put(header, base, items) => PutCandidate(g, root, c, header, base, items)
    case Validate => ValidateCandidate(g, root, c)
    case Activate(header, revision) => ActivateConfiguration(g, c, header, revision)
    case Rollback(header, source) => RollbackConfiguration(g, root, c, header, source)
  }

  // ---- what every request keeps ----

  // A stored envelope is sealed under its own installation, key, revision and schema
  // version, by the root key its row names; the stored digest is that of the content.
  predicate RowSound(g: Setting, revision: int, k: Key, row: Value) {
    && k in g.catalog
    && match row.cipher
       case None => row.keyId.None? && row.digest == OfTyped(row.typed)
       case Some(e) => e.Sealed? && e.aad == AadOf(g, revision, k) && row.typed.None? && row.keyId == Some(e.root) &&
                       row.digest == OfSecret(e.plain)
  }

  ghost predicate RowsSound(g: Setting, revision: int, rows: Values) {
    forall k :: k in rows ==> RowSound(g, revision, k, rows[k])
  }

  function ShownOf(rows: Values): map<Key, Shown> {
    map k | k in rows :: if rows[k].cipher.Some? then Masked else Plain(rows[k].typed)
  }

  // A revision whose candidate request was refused half way keeps the zero hash.
  predicate SnapshotMatches(snapshot: Snapshot, rows: Values) {
    snapshot.Zeros? || snapshot == Hash(ShownOf(rows))
  }

  ghost predicate RevisionSound(g: Setting, c: Config, r: int) {
    && r in c.revisions
    && 1 <= r < c.next
    && RowsSound(g, r, RowsOf(c, r))
    && SnapshotMatches(c.revisions[r].snapshot, RowsOf(c, r))
  }

  predicate IsActive(c: Config, r: int) {
    r in c.revisions && c.revisions[r].phase == ACTIVE
  }

  ghost predicate Sound(g: Setting, c: Config) {
    && c.next >= 1
    && (forall r :: r in c.revisions ==> RevisionSound(g, c, r))
    && (forall r :: r in c.values ==> r in c.revisions)
    && (c.pointer.Some? ==> IsActive(c, c.pointer.value.active) && IsActive(c, c.pointer.value.lastKnownGood))
  }

  // ---- the handlers ----

  lemma {:induction false} ErrorSticks(g: Setting, root: Option<string>, revision: int, items: seq<Item>, i: nat)
    requires i <= |items| && Drafted(g, root, revision, items[..i]).error.Some?
    ensures Drafted(g, root, revision, items) == Drafted(g, root, revision, items[..i])
  {
    if i == |items| {
      assert items[..i] == items;
    } else {
      var before := items[..|items| - 1];
      assert before[..i] == items[..i];
      ErrorSticks(g, root, revision, before, i);
    }
  }

  lemma NothingDrafted(g: Setting, root: Option<string>, revision: int)
    ensures forall items: seq<Item> :: items == [] ==> Drafted(g, root, revision, items) == Draft(map[], map[], None)
  {
  }

  lemma DraftStep(g: Setting, root: Option<string>, revision: int, items: seq<Item>, i: nat)
    requires i < |items|
    ensures Drafted(g, root, revision, items[..i + 1]) ==
            Added(g, root, revision, Drafted(g, root, revision, items[..i]), items[i])
  {
    assert items[..i + 1][..i] == items[..i];
  }

  // In a sound state a copied secret opens or its root key is no longer configured.
  lemma SoundReads(g: Setting, root: Option<string>, source: int, rows: Values, k: Key)
    requires RowsSound(g, source, rows) && k in rows && rows[k].cipher.Some?
    ensures Plaintext(g, root, source, k, rows[k]) ==
            if root.None? then Raised
            else if rows[k].keyId != root then Unavailable
            else Opened(rows[k].cipher.value.plain)
  {
  }

  // So in a sound state they all fail alike.
  lemma OneKindOfFailure(g: Setting, root: Option<string>, source: int, rows: Values)
    requires RowsSound(g, source, rows)
    ensures !SomeReads(g, root, source, rows, Raised) || !SomeReads(g, root, source, rows, Unavailable)
  {
    forall k | k in rows && rows[k].cipher.Some?
      ensures Plaintext(g, root, source, k, rows[k]) != if root.None? then Unavailable else Raised
    {
      SoundReads(g, root, source, rows, k);
    }
  }

  lemma OpenedUnderRoot(g: Setting, root: Option<string>, source: int, k: Key, row: Value)
    requires k in g.catalog && row.cipher.Some? && Plaintext(g, root, source, k, row).Opened?
    ensures root.Some?
  {
  }

  lemma NoneAcknowledged(consumers: map<string, Consumer>, r: int)
    ensures Acknowledged(consumers, {}, r) == consumers
  {
  }

  lemma OneMore(consumers: map<string, Consumer>, done: set<string>, x: string, r: int)
    requires x !in done
    ensures var now := Acknowledged(consumers, done, r);
            && (x in now <==> x in consumers)
            && (x in consumers ==> now[x] == consumers[x])
            && Acknowledged(consumers, done + {x}, r) ==
                 now[x := Consumer(r, Some(r), true, if x in consumers then consumers[x].error else None)]
  {
  }

  class ControlDatabase {
    const g: Setting
    var revisions: map<int, Revision>
    var next: int
    var values: map<int, Values>
    var pointer: Option<Pointer>
    var consumers: map<string, Consumer>
    var audit: seq<Event>

    constructor (g: Setting, c: Config)
      ensures this.g == g && Value() == c
    {
      this.g := g;
      revisions, next, values := c.revisions, c.next, c.values;
      pointer, consumers, audit := c.pointer, c.consumers, c.audit;
    }

    function Value(): Config
      reads this
    {
      Config(revisions, next, values, pointer, consumers, audit)
    }

    method Audit(name: string, revision: int)
      modifies this`audit
      ensures Value() == Logged(old(Value()), name, revision)
    {
      audit := audit + [Event(name, revision)];
    }

    // The revision and the rows before the offending item stay when a request is
    // refused half way; a missing root key undoes everything.
    method HandlePut(root: Option<string>, header: IfMatch, base: int, items: seq<Item>) returns (outcome: Outcome)
      modifies this
      ensures (Value(), outcome) == PutCandidate(g, root, old(Value()), header, base, items)
    {
      var mismatch := Precondition(header, Current(Value()));
      if mismatch.Some? { return Refused(mismatch.value); }
      if pointer.None? || base != pointer.value.active { return Refused(RevisionMismatch); }
      hide Drafted;
      hide Current;
      var saved := (revisions, next, values);
      ghost var before := Value();
      var r := next;
      revisions := revisions[r := Revision(base, CANDIDATE, Zeros)];
      next := next + 1;
      values := values[r := map[]];
      var snapshot, error := AddItems(root, r, items);
      assert values == before.values[r := values[r]];
      if error == Some(Crashed) {
        revisions, next, values := saved.0, saved.1, saved.2;
        assert Value() == before;
        return Crashed;
      }
      if error.Some? { return error.value; }
      CompleteCandidate(r, snapshot);
      assert revisions == before.revisions[r := Revision(base, CANDIDATE, Hash(snapshot))];
      return Done;
    }

    method CompleteCandidate(r: int, snapshot: map<Key, Shown>)
      requires r in revisions && pointer.Some?
      modifies this`revisions, this`pointer, this`audit
      ensures revisions == old(revisions)[r := old(revisions)[r].(snapshot := Hash(snapshot))]
      ensures pointer == Some(old(pointer).value.(candidate := Some(r)))
      ensures audit == old(audit) + [Event("CONFIG_CANDIDATE", r)]
    {
      revisions := revisions[r := revisions[r].(snapshot := Hash(snapshot))];
      pointer := Some(pointer.value.(candidate := Some(r)));
      Audit("CONFIG_CANDIDATE", r);
    }

    method AddItems(root: Option<string>, r: int, items: seq<Item>)
      returns (snapshot: map<Key, Shown>, error: Option<Outcome>)
      requires r in values && values[r] == map[]
      modifies this`values
      ensures r in values && values == old(values)[r := values[r]]
      ensures Drafted(g, root, r, items) == Draft(values[r], snapshot, error)
    {
      hide Drafted;
      hide Added;
      NothingDrafted(g, root, r);
      snapshot := map[];
      var i := 0;
      while i < |items|
        invariant 0 <= i <= |items|
        invariant r in values && Drafted(g, root, r, items[..i]) == Draft(values[r], snapshot, None)
        invariant values == old(values)[r := values[r]]
      {
        DraftStep(g, root, r, items, i);
        snapshot, error := AddItem(root, r, items[i], snapshot);
        if error.Some? {
          ErrorSticks(g, root, r, items, i + 1);
          return;
        }
        i := i + 1;
      }
      assert items[..i] == items;
      error := None;
    }

    // One turn of the loop; the keys stored so far are the keys seen.
    method AddItem(root: Option<string>, r: int, item: Item, snapshot: map<Key, Shown>)
      returns (shown: map<Key, Shown>, error: Option<Outcome>)
      requires r in values
      modifies this`values
      ensures r in values && values == old(values)[r := values[r]]
      ensures Draft(values[r], shown, error) == Added(g, root, r, Draft(old(values[r]), snapshot, None), item)
    {
      if item.key in values[r] || item.key !in g.catalog { return snapshot, Some(InvalidRequest); }
      if g.catalog[item.key].secret {
        if item.secret.None? { return snapshot, Some(InvalidRequest); }
        if root.None? { return snapshot, Some(Crashed); }
        var plain := item.secret.value;
        values := values[r := values[r][item.key := SecretValue(g, root.value, r, item.key, plain, OfSecret(plain))]];
        return snapshot[item.key := Masked], None;
      }
      values := values[r := values[r][item.key := TypedValue(item.typed, OfTyped(item.typed))]];
      return snapshot[item.key := Plain(item.typed)], None;
    }

    method HandleValidate(root: Option<string>) returns (outcome: Outcome)
      modifies this
      ensures (Value(), outcome) == ValidateCandidate(g, root, old(Value()))
    {
      var candidate := LatestCandidate(Value());
      if candidate.None? { return NotFound; }
      var r := candidate.value;
      var rows := RowsOf(Value(), r);
      var effective := (if pointer.Some? then RowsOf(Value(), pointer.value.active).Keys else {}) + rows.Keys;
      assert effective == EffectiveRows(Value(), r).Keys;
      var errors := CheckRows(root, r, rows, effective);
      if errors.None? { return Crashed; }
      revisions := revisions[r := revisions[r].(phase := if errors.value == [] then VALIDATED else FAILED)];
      Audit(if errors.value == [] then "CONFIG_VALIDATED" else "CONFIG_FAILED", r);
      return Done;
    }

    // The keys with an error, or None when an exception escapes.
    method CheckRows(root: Option<string>, r: int, rows: Values, effective: set<Key>) returns (errors: Option<seq<Key>>)
      ensures errors.None? <==> SomeBreak(g, root, r, rows)
      ensures errors.Some? ==> (errors.value == [] <==> AllPass(g, root, r, rows, effective))
    {
      hide Passes;
      hide Breaks;
      var found: seq<Key> := [];
      var left := rows.Keys;
      while left != {}
        invariant left <= rows.Keys
        invariant forall k :: k in rows && k !in left ==> !Breaks(g, root, r, k, rows[k])
        invariant found == [] <==> CheckedPass(root, r, rows, left, effective)
        decreases |left|
      {
        var k :| k in left;
        if Breaks(g, root, r, k, rows[k]) { return None; }
        BreaksNot(g, root, r, k, rows[k]);
        if !Passes(g, root, r, k, rows[k], effective) { found := found + [k]; }
        left := left - {k};
      }
      errors := Some(found);
    }

    ghost predicate CheckedPass(root: Option<string>, r: int, rows: Values, left: set<Key>, effective: set<Key>) {
      forall k :: k in rows && k !in left ==> k in g.catalog && Passes(g, root, r, k, rows[k], effective)
    }

    method AcknowledgeAll(r: int)
      modifies this`consumers
      ensures consumers == Acknowledged(old(consumers), Consumers(g.catalog), r)
    {
      hide Consumers;
      hide Acknowledged;
      var names := Consumers(g.catalog);
      var left := names;
      NoneAcknowledged(consumers, r);
      ghost var done: set<string> := {};
      while left != {}
        invariant left + done == names && left !! done
        invariant consumers == Acknowledged(old(consumers), done, r)
        decreases |left|
      {
        var x :| x in left;
        OneMore(old(consumers), done, x, r);
        if x !in consumers {
          consumers := consumers[x := Consumer(r, Some(r), true, None)];
        } else {
          var row := consumers[x];
          row := row.(desired := r);
          row := row.(applied := Some(r));
          row := row.(acked := true);
          consumers := consumers[x := row];
        }
        left := left - {x};
        done := done + {x};
      }
      assert done == names;
    }

    method HandleActivate(header: IfMatch, r: int) returns (outcome: Outcome)
      modifies this
      ensures (Value(), outcome) == ActivateConfiguration(g, old(Value()), header, r)
    {
      var mismatch := Precondition(header, Current(Value()));
      if mismatch.Some? { return Refused(mismatch.value); }
      if AlreadyActive(Value(), r) { return Done; }
      if r !in revisions || revisions[r].phase != VALIDATED { return NotValidated; }
      var previous := if pointer.Some? then pointer.value.active else r;
      pointer := Some(Pointer(r, previous, None));
      revisions := revisions[r := revisions[r].(phase := ACTIVE)];
      AcknowledgeAll(r);
      Audit("CONFIG_ACTIVATED", r);
      return Done;
    }

    // The service function used outside the handler: the same change of state, with
    // one refusal named differently.
    method ActivateRevision(header: IfMatch, r: int) returns (outcome: Outcome)
      modifies this
      ensures Value() == ActivateConfiguration(g, old(Value()), header, r).0
      ensures var answered := ActivateConfiguration(g, old(Value()), header, r).1;
              outcome == if answered == NotValidated && r !in old(revisions) then NotFound else answered
    {
      var mismatch := Precondition(header, Current(Value()));
      if mismatch.Some? { return Refused(mismatch.value); }
      if r !in revisions { return NotFound; }
      if pointer.Some? && pointer.value.active == r && revisions[r].phase == ACTIVE { return Done; }
      if revisions[r].phase != VALIDATED { return NotValidated; }
      if pointer.None? {
        pointer := Some(Pointer(r, r, None));
      } else {
        pointer := Some(Pointer(r, pointer.value.active, None));
      }
      revisions := revisions[r := revisions[r].(phase := ACTIVE)];
      AcknowledgeAll(r);
      Audit("CONFIG_ACTIVATED", r);
      return Done;
    }

    // Opens every secret of the source before anything is written. The rows come in any
    // order, and the first that fails decides the answer.
    method ReadSecrets(root: Option<string>, source: int, rows: Values)
      returns (plain: map<Key, string>, failure: Option<Outcome>)
      ensures failure.None? <==>
                !SomeReads(g, root, source, rows, Raised) && !SomeReads(g, root, source, rows, Unavailable)
      ensures failure.Some? ==>
                || (failure.value == Crashed && SomeReads(g, root, source, rows, Raised))
                || (failure.value == SecretUnavailable && SomeReads(g, root, source, rows, Unavailable))
      ensures failure.None? ==> Opens(root, source, rows, plain)
    {
      hide Open;
      var left := rows.Keys;
      plain := map[];
      while left != {}
        invariant left <= rows.Keys
        invariant forall k :: k in rows && k !in left && rows[k].cipher.Some? ==>
                    k in plain && Plaintext(g, root, source, k, rows[k]) == Opened(plain[k])
        decreases |left|
      {
        var k :| k in left;
        if rows[k].cipher.Some? {
          var opening := Plaintext(g, root, source, k, rows[k]);
          if opening.Raised? { return plain, Some(Crashed); }
          if opening.Unavailable? { return plain, Some(SecretUnavailable); }
          plain := plain[k := opening.plain];
        }
        left := left - {k};
      }
      failure := None;
    }

    ghost predicate Opens(root: Option<string>, source: int, rows: Values, plain: map<Key, string>) {
      forall k :: k in rows && rows[k].cipher.Some? ==>
        k in plain && Plaintext(g, root, source, k, rows[k]) == Opened(plain[k])
    }

    method HandleRollback(root: Option<string>, header: IfMatch, source: int) returns (outcome: Outcome)
      modifies this
      ensures Value() == RollbackConfiguration(g, root, old(Value()), header, source).0
      ensures var answer := RollbackConfiguration(g, root, old(Value()), header, source).1;
              || outcome == answer
              || (answer == Crashed && outcome == SecretUnavailable && !old(Sound(g, Value())))
    {
      hide Plaintext;
      hide RowsSound;
      hide SomeReads;
      hide Copies;
      hide Opens;
      var mismatch := Precondition(header, Current(Value()));
      if mismatch.Some? { return Refused(mismatch.value); }
      if source !in revisions { return NotFound; }
      var rows := RowsOf(Value(), source);
      if Sound(g, Value()) {
        assert RevisionSound(g, Value(), source);
        OneKindOfFailure(g, root, source, rows);
      }
      var plain, failure := ReadSecrets(root, source, rows);
      if failure.Some? { return failure.value; }
      var r := next;
      revisions := revisions[r := Revision(Current(Value()), ACTIVE, revisions[source].snapshot)];
      next := next + 1;
      var copies := CopyRows(root, source, r, rows, plain);
      values := values[r := copies];
      if pointer.None? {
        pointer := Some(Pointer(r, r, None));
      } else {
        pointer := Some(pointer.value.(lastKnownGood := pointer.value.active, active := r));
      }
      Audit("CONFIG_ROLLED_BACK", r);
      return Done;
    }

    method CopyRows(root: Option<string>, source: int, r: int, rows: Values, plain: map<Key, string>)
      returns (copies: Values)
      requires Opens(root, source, rows, plain)
      ensures copies == Copies(g, root, source, r, rows)
    {
      hide Open;
      copies := map[];
      var left := rows.Keys;
      while left != {}
        invariant left <= rows.Keys
        invariant copies.Keys == rows.Keys - left
        invariant forall k :: k in copies ==> copies[k] == Copied(g, root, source, r, k, rows[k])
        decreases |left|
      {
        var k :| k in left;
        if rows[k].cipher.None? {
          copies := copies[k := TypedValue(rows[k].typed, rows[k].digest)];
        } else if k in g.catalog {
          OpenedUnderRoot(g, root, source, k, rows[k]);
          copies := copies[k := SecretValue(g, root.value, r, k, plain[k], rows[k].digest)];
        } else {
          copies := copies[k := BlankValue(rows[k].digest)];
        }
        left := left - {k};
      }
    }
  }
}
