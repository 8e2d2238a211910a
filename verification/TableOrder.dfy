// Ordering tables by their references: the layered load order, which falls back
// to the first remaining table when nothing is ready, and the layered drop order,
// which fails instead. Tables are numbered in name order.
module TableOrder {
  import opened Wrappers
  import opened Totals

  // For each table, the tables it has to wait for.
  type Graph = map<int, set<int>>

  // A table never waits for itself.
  predicate Waits(g: Graph, a: int, b: int) {
    a in g && b in g[a] && a != b
  }

  // ---- walks and cycles ----

  ghost predicate Walk(g: Graph, tables: set<int>, w: seq<int>) {
    && (forall i :: 0 <= i < |w| ==> w[i] in tables)
    && (forall i :: 0 <= i < |w| - 1 ==> Waits(g, w[i], w[i + 1]))
  }

  ghost predicate Cycle(g: Graph, tables: set<int>, w: seq<int>) {
    |w| >= 2 && Walk(g, tables, w) && w[0] == w[|w| - 1]
  }

  ghost predicate Cyclic(g: Graph, tables: set<int>) {
    exists w :: Cycle(g, tables, w)
  }

  ghost predicate WaitsWithin(g: Graph, pending: set<int>, t: int) {
    exists u :: u in pending && Waits(g, t, u)
  }

  ghost predicate Stuck(g: Graph, pending: set<int>) {
    pending != {} && forall t :: t in pending ==> WaitsWithin(g, pending, t)
  }

  lemma {:induction false} LongWalk(g: Graph, pending: set<int>, n: nat) returns (w: seq<int>)
    requires Stuck(g, pending)
    ensures |w| == n + 1 && Walk(g, pending, w)
  {
    if n == 0 {
      Inhabited(pending);
      var t :| t in pending;
      w := [t];
    } else {
      w := LongWalk(g, pending, n - 1);
      assert w[n - 1] in pending && WaitsWithin(g, pending, w[n - 1]);
      hide Stuck;
      hide Waits;
      var u :| u in pending && Waits(g, w[n - 1], u);
      w := w + [u];
    }
  }

  lemma Repeat(w: seq<int>, s: set<int>) returns (i: nat, j: nat)
    requires |w| > |s| && forall k :: 0 <= k < |w| ==> w[k] in s
    ensures i < j < |w| && w[i] == w[j]
  {
    if Distinct(w) {
      DistinctCount(w);
      var members := set x | x in w;
      assert members <= s;
      SmallerSubset(members, s);
    }
    i, j :| 0 <= i < j < |w| && w[i] == w[j];
  }

  lemma SmallerSubset(a: set<int>, b: set<int>)
    requires a <= b
    ensures |a| <= |b|
  {
    assert b == a + (b - a);
  }

  lemma WalkCloses(g: Graph, tables: set<int>, pending: set<int>, w: seq<int>, i: nat, j: nat)
    requires Walk(g, pending, w) && pending <= tables && i < j < |w| && w[i] == w[j]
    ensures Cycle(g, tables, w[i..j + 1])
  {
  }

  // A set of tables each waiting for another of them contains a cycle.
  lemma StuckIsCyclic(g: Graph, pending: set<int>, tables: set<int>)
    requires Stuck(g, pending) && pending <= tables
    ensures Cyclic(g, tables)
  {
    hide Cycle;
    hide Stuck;
    var w := LongWalk(g, pending, |pending|);
    var i, j := Repeat(w, pending);
    WalkCloses(g, tables, pending, w, i, j);
  }

  // ---- load order ----

  function Ready(g: Graph, pending: set<int>): set<int> {
    set t | t in pending && forall u :: u in pending ==> !Waits(g, t, u)
  }

  function Layer(g: Graph, pending: set<int>): (layer: seq<int>)
    requires pending != {}
    ensures layer != []
    ensures Distinct(layer)
    ensures forall t :: t in layer ==> t in pending
  {
    if Ready(g, pending) == {} then [Least(pending)] else Sorted(Ready(g, pending))
  }

  lemma LayerShrinks(g: Graph, pending: set<int>)
    requires pending != {}
    ensures |pending - Members(Layer(g, pending))| < |pending|
  {
  }

  function LoadOrder(g: Graph, pending: set<int>): seq<int>
    decreases |pending|
  {
    if pending == {} then []
    else
      LayerShrinks(g, pending);
      Layer(g, pending) + LoadOrder(g, pending - Members(Layer(g, pending)))
  }

  lemma Unfold(g: Graph, pending: set<int>, done: seq<int>)
    requires pending != {}
    ensures done + LoadOrder(g, pending) ==
            (done + Layer(g, pending)) + LoadOrder(g, pending - Members(Layer(g, pending)))
  {
    hide Layer;
    UnfoldFirst(g, pending);
    hide LoadOrder;
    assert done + (Layer(g, pending) + LoadOrder(g, pending - Members(Layer(g, pending)))) ==
           (done + Layer(g, pending)) + LoadOrder(g, pending - Members(Layer(g, pending)));
  }

  lemma UnfoldFirst(g: Graph, pending: set<int>)
    requires pending != {}
    ensures LoadOrder(g, pending) == Layer(g, pending) + LoadOrder(g, pending - Members(Layer(g, pending)))
  {
    hide Layer;
    LayerShrinks(g, pending);
  }

  method ComputeLoadOrder(g: Graph, tables: set<int>) returns (ordered: seq<int>)
    ensures ordered == LoadOrder(g, tables)
  {
    hide LoadOrder;
    hide Ready;
    var pending := tables;
    ordered := [];
    while pending != {}
      invariant ordered + LoadOrder(g, pending) == LoadOrder(g, tables)
      decreases |pending|
    {
      var ready := Sorted(Ready(g, pending));
      NoneSorted(Ready(g, pending));
      if ready == [] { ready := [Least(pending)]; }
      assert ready == Layer(g, pending);
      LayerShrinks(g, pending);
      Unfold(g, pending, ordered);
      ordered := ordered + ready;
      pending := pending - Members(ready);
    }
    NoTables(g);
  }

  lemma NoTables(g: Graph)
    ensures LoadOrder(g, {}) == []
  {
  }

  lemma NoneSorted(s: set<int>)
    ensures Sorted(s) == [] <==> s == {}
  {
  }

  ghost predicate Permutes(order: seq<int>, tables: set<int>) {
    Distinct(order) && forall t :: t in order <==> t in tables
  }

  lemma PermutesConcat(a: seq<int>, b: seq<int>, tables: set<int>)
    requires Distinct(a) && (forall t :: t in a ==> t in tables) && Permutes(b, tables - Members(a))
    ensures Permutes(a + b, tables)
  {
    forall i, j | 0 <= i < j < |a + b|
      ensures (a + b)[i] != (a + b)[j]
    {
      if i < |a| <= j {
        assert a[i] in Members(a) && b[j - |a|] in b;
      }
    }
  }

  lemma {:induction false} LoadOrderPermutes(g: Graph, pending: set<int>)
    ensures Permutes(LoadOrder(g, pending), pending)
    decreases |pending|
  {
    if pending != {} {
      LayerShrinks(g, pending);
      var layer := Layer(g, pending);
      LoadOrderPermutes(g, pending - Members(layer));
      PermutesConcat(layer, LoadOrder(g, pending - Members(layer)), pending);
    }
  }

  // Whatever a table waits for, if it is in the order at all, comes before it.
  ghost predicate WaitedFirst(g: Graph, order: seq<int>) {
    forall i, j :: 0 <= i < |order| && 0 <= j < |order| && Waits(g, order[i], order[j]) ==> j < i
  }

  lemma {:induction false} WalkDescends(g: Graph, order: seq<int>, w: seq<int>, at: seq<nat>)
    requires WaitedFirst(g, order) && |w| == |at| >= 2
    requires forall i :: 0 <= i < |w| ==> at[i] < |order| && order[at[i]] == w[i]
    requires forall i :: 0 <= i < |w| - 1 ==> Waits(g, w[i], w[i + 1])
    ensures at[|w| - 1] < at[0]
  {
    var n := |w| - 1;
    assert Waits(g, order[at[n - 1]], order[at[n]]);
    if n > 1 { WalkDescends(g, order, w[..n], at[..n]); }
  }

  // A set that a permutation orders this way has no cycle.
  lemma OrderedIsAcyclic(g: Graph, order: seq<int>, tables: set<int>)
    requires Permutes(order, tables) && WaitedFirst(g, order)
    ensures !Cyclic(g, tables)
  {
    forall w
      ensures !Cycle(g, tables, w)
    {
      if |w| >= 2 && Walk(g, tables, w) {
        assert SubsetOf(w, order) by {
          forall i | 0 <= i < |w|
            ensures w[i] in order
          {
            var t := w[i];
            assert t in tables;
          }
        }
        var at := Locate(order, w);
        WalkDescends(g, order, w, at);
      }
    }
  }

  ghost predicate SubsetOf(w: seq<int>, order: seq<int>) {
    forall i :: 0 <= i < |w| ==> w[i] in order
  }

  lemma {:induction false} Locate(order: seq<int>, w: seq<int>) returns (at: seq<nat>)
    requires SubsetOf(w, order)
    ensures |at| == |w| && forall i :: 0 <= i < |w| ==> at[i] < |order| && order[at[i]] == w[i]
  {
    at := [];
    if w != [] {
      at := Locate(order, w[..|w| - 1]);
      var k :| 0 <= k < |order| && order[k] == w[|w| - 1];
      at := at + [k];
    }
  }

  lemma NotStuck(g: Graph, pending: set<int>, tables: set<int>)
    requires pending != {} && pending <= tables && !Cyclic(g, tables)
    ensures Ready(g, pending) != {}
  {
    if Stuck(g, pending) { StuckIsCyclic(g, pending, tables); }
    var t :| t in pending && forall u :: u in pending ==> !Waits(g, t, u);
    assert t in Ready(g, pending);
  }

  lemma {:induction false} LoadOrderWaits(g: Graph, pending: set<int>, tables: set<int>)
    requires pending <= tables && !Cyclic(g, tables)
    ensures WaitedFirst(g, LoadOrder(g, pending))
    decreases |pending|
  {
    if pending != {} {
      NotStuck(g, pending, tables);
      LayerShrinks(g, pending);
      var layer := Layer(g, pending);
      var left := pending - Members(layer);
      LoadOrderWaits(g, left, tables);
      LoadOrderPermutes(g, left);
      LayerFirst(g, layer, LoadOrder(g, left), pending);
    }
  }

  lemma LayerFirst(g: Graph, layer: seq<int>, rest: seq<int>, pending: set<int>)
    requires forall t, u :: t in layer && u in pending ==> !Waits(g, t, u)
    requires forall t :: t in layer ==> t in pending
    requires forall t :: t in rest ==> t in pending
    requires WaitedFirst(g, rest)
    ensures WaitedFirst(g, layer + rest)
  {
  }

  // The load order puts every table after what it waits for exactly when the
  // waiting has no cycle.
  lemma LoadOrderCorrect(g: Graph, tables: set<int>)
    ensures Permutes(LoadOrder(g, tables), tables)
    ensures WaitedFirst(g, LoadOrder(g, tables)) <==> !Cyclic(g, tables)
  {
    LoadOrderPermutes(g, tables);
    if !Cyclic(g, tables) { LoadOrderWaits(g, tables, tables); }
    if WaitedFirst(g, LoadOrder(g, tables)) { OrderedIsAcyclic(g, LoadOrder(g, tables), tables); }
  }

  // What comes first: the first table, in name order, that waits for no other, or the
  // first of all where every table waits.
  lemma FirstTable(g: Graph, tables: set<int>)
    requires tables != {}
    ensures LoadOrder(g, tables) != [] && LoadOrder(g, tables)[0] in tables
    ensures var first := LoadOrder(g, tables)[0];
            forall t :: t in tables && t < first ==>
              WaitsWithin(g, tables, t) && exists u :: u in tables && !WaitsWithin(g, tables, u)
    ensures WaitsWithin(g, tables, LoadOrder(g, tables)[0]) ==> Stuck(g, tables)
  {
    UnfoldFirst(g, tables);
    hide LoadOrder;
    var ready := Ready(g, tables);
    if ready != {} {
      var order := Sorted(ready);
      assert order[0] in order;
      assert !WaitsWithin(g, tables, order[0]);
      assert forall k :: 0 <= k < |order| ==> order[0] <= order[k];
      forall t | t in tables && t < order[0]
        ensures t !in ready
      {
        assert t !in order;
      }
    } else {
      NothingReady(g, tables);
    }
  }

  // ---- drop order ----

  datatype DropFailure = ReferenceCycle(remaining: set<int>)

  // A table can go once no other remaining table refers to it.
  function Unreferenced(references: Graph, pending: set<int>): set<int> {
    set t | t in pending && !exists other :: other in pending - {t} && other in references && t in references[other]
  }

  // The waiting relation of dropping: a table waits for the tables that refer to it.
  function Referrers(references: Graph, tables: set<int>): Graph {
    map t | t in tables :: set other | other in tables && other in references && t in references[other]
  }

  lemma UnreferencedIsReady(references: Graph, pending: set<int>, tables: set<int>)
    requires pending <= tables
    ensures Unreferenced(references, pending) == Ready(Referrers(references, tables), pending)
  {
  }

  ghost predicate ReferrersFirst(references: Graph, order: seq<int>) {
    forall i, j :: 0 <= i < |order| && 0 <= j < |order| && Waits(references, order[i], order[j]) ==> i < j
  }

  // The drop order takes every table exactly once, each before the tables it
  // refers to; it fails exactly when the references form a cycle, and then the
  // tables it names contain one.
  method ComputeDropOrder(references: Graph, names: set<int>) returns (r: Result<seq<int>, DropFailure>)
    ensures r.Ok? ==> Permutes(r.value, names) && ReferrersFirst(references, r.value)
    ensures r.Err? <==> Cyclic(references, names)
    ensures r.Err? ==> r.error.remaining <= names && Cyclic(references, r.error.remaining)
  {
    hide LoadOrder;
    hide Ready;
    hide Unreferenced;
    hide Referrers;
    hide Cyclic;
    hide Permutes;
    ghost var g := Referrers(references, names);
    var pending := names;
    var dropOrder: seq<int> := [];
    while pending != {}
      invariant pending <= names
      invariant dropOrder + LoadOrder(g, pending) == LoadOrder(g, names)
      invariant Peeled(g, names, pending)
      decreases |pending|
    {
      var ready := Unreferenced(references, pending);
      UnreferencedIsReady(references, pending, names);
      if ready == {} {
        NothingReady(g, pending);
        StuckIsCyclic(g, pending, pending);
        CycleReverses(references, names, pending);
        CyclicWithin(references, pending, names);
        return Err(ReferenceCycle(pending));
      }
      LayerShrinks(g, pending);
      Unfold(g, pending, dropOrder);
      assert Layer(g, pending) == Sorted(ready);
      SortedMembers(ready);
      PeelReady(g, names, pending);
      dropOrder := dropOrder + Sorted(ready);
      pending := pending - ready;
    }
    NoTables(g);
    assert dropOrder == LoadOrder(g, names);
    PeeledIsAcyclic(g, names);
    CycleReverses(references, names, names);
    LoadOrderCorrect(g, names);
    ReferrersOrder(references, names, dropOrder);
    return Ok(dropOrder);
  }

  lemma SortedMembers(s: set<int>)
    ensures Members(Sorted(s)) == s
  {
  }

  // Every cycle among the names lies within what is still pending.
  ghost predicate Peeled(g: Graph, names: set<int>, pending: set<int>) {
    forall w :: Cycle(g, names, w) ==> Cycle(g, pending, w)
  }

  lemma PeelReady(g: Graph, names: set<int>, pending: set<int>)
    requires Peeled(g, names, pending)
    ensures Peeled(g, names, pending - Ready(g, pending))
  {
    forall w | Cycle(g, names, w)
      ensures Cycle(g, pending - Ready(g, pending), w)
    {
      assert Cycle(g, pending, w);
      forall i | 0 <= i < |w|
        ensures w[i] !in Ready(g, pending)
      {
        if i < |w| - 1 {
          assert Waits(g, w[i], w[i + 1]);
        } else {
          assert Waits(g, w[0], w[1]);
        }
      }
    }
  }

  lemma PeeledIsAcyclic(g: Graph, names: set<int>)
    requires Peeled(g, names, {})
    ensures !Cyclic(g, names)
  {
  }

  lemma ReferrersOrder(references: Graph, names: set<int>, order: seq<int>)
    requires Permutes(order, names) && WaitedFirst(Referrers(references, names), order)
    ensures ReferrersFirst(references, order)
  {
  }

  lemma NothingReady(g: Graph, pending: set<int>)
    requires pending != {} && Ready(g, pending) == {}
    ensures Stuck(g, pending)
  {
    forall t | t in pending
      ensures WaitsWithin(g, pending, t)
    {
      assert t !in Ready(g, pending);
    }
  }

  lemma CyclicWithin(g: Graph, some: set<int>, tables: set<int>)
    requires some <= tables && Cyclic(g, some)
    ensures Cyclic(g, tables)
  {
    var w :| Cycle(g, some, w);
    assert Cycle(g, tables, w);
  }

  function Reversed(w: seq<int>): seq<int> {
    seq(|w|, i requires 0 <= i < |w| => w[|w| - 1 - i])
  }

  // Waiting for referrers has a cycle exactly when referring has one.
  lemma CycleReverses(references: Graph, names: set<int>, tables: set<int>)
    requires tables <= names
    ensures Cyclic(Referrers(references, names), tables) <==> Cyclic(references, tables)
  {
    var g := Referrers(references, names);
    if Cyclic(g, tables) {
      var w :| Cycle(g, tables, w);
      assert Cycle(references, tables, Reversed(w));
    }
    if Cyclic(references, tables) {
      var w :| Cycle(references, tables, w);
      assert Cycle(g, tables, Reversed(w));
    }
  }
}
