/**
 The foreign-key graph of the tenant-scoped models and the insert order derived
 from it (backend-nest/src/backup/snapshot.model-graph.ts).
 */
module ModelGraph {
  import opened Basics
  import opened Wrappers
  import opened JsText

  /** One line of the dependency table: a model and the models it points at. */
  datatype Declaration = Declaration(name: Text, targets: seq<Text>)

  /** The table in declaration order. Object keys are unique. */
  type Table = g: seq<Declaration> | forall i, j :: 0 <= i < j < |g| ==> g[i].name != g[j].name

  /** The models a model must follow, by name. */
  type Edges = map<Text, set<Text>>

  function EdgesOf(d: Declaration, globals: set<Text>): set<Text> {
    set t | t in d.targets && t !in globals && t != d.name
  }

  /** Every declared model with its edges, global targets and self-references dropped. */
  ghost function EdgesIn(g: Table, globals: set<Text>): Edges {
    map d | d in g :: d.name := EdgesOf(d, globals)
  }

  ghost predicate Declared(g: Table, n: Text) {
    exists d :: d in g && d.name == n
  }

  /** The table says that `n` needs `t`, which is neither global nor `n` itself. */
  ghost predicate Needs(g: Table, globals: set<Text>, n: Text, t: Text) {
    exists d :: d in g && d.name == n && t in d.targets && t !in globals && t != n
  }

  /** The edges are what the table says. */
  lemma EdgesAreNeeds(g: Table, globals: set<Text>)
    ensures forall n :: n in EdgesIn(g, globals) <==> Declared(g, n)
    ensures forall n, t :: n in EdgesIn(g, globals) && t in EdgesIn(g, globals)[n] <==> Needs(g, globals, n, t)
  {
    var edges := EdgesIn(g, globals);
    forall n
      ensures n in edges <==> Declared(g, n)
    {
    }
    forall n, t
      ensures n in edges && t in edges[n] <==> Needs(g, globals, n, t)
    {
      if n in edges {
        var d :| d in g && d.name == n;
        assert edges[n] == EdgesOf(d, globals);
        assert forall e :: e in g && e.name == n ==> e == d;
      }
    }
  }

  // ------------------------------------------------------------ specification

  ghost function Ready(edges: Edges, placed: set<Text>): set<Text> {
    set n | n in edges && n !in placed && edges[n] <= placed
  }

  /** The rest of the order once `placed` has been placed, wave by wave; None when a wave is empty. */
  ghost function OrderFrom(edges: Edges, placed: set<Text>): Option<seq<Text>>
    decreases |edges.Keys - placed|
  {
    var ready := Ready(edges, placed);
    if edges.Keys <= placed then Some([])
    else if ready == {} then None
    else
      SmallerRest(edges, placed);
      match OrderFrom(edges, placed + ready)
      case None => None
      case Some(rest) => Some(Enumerate(ready) + rest)
  }

  lemma SmallerRest(edges: Edges, placed: set<Text>)
    requires Ready(edges, placed) != {}
    ensures |edges.Keys - (placed + Ready(edges, placed))| < |edges.Keys - placed|
  {
    var ready := Ready(edges, placed);
    var n :| n in ready;
    assert edges.Keys - (placed + ready) <= (edges.Keys - placed) - {n};
    SubsetSize(edges.Keys - (placed + ready), (edges.Keys - placed) - {n});
  }

  lemma {:induction false} DistinctSize<T>(s: seq<T>)
    requires NoDuplicates(s)
    ensures |(set x | x in s)| == |s|
  {
    if s != [] {
      DistinctSize(s[1..]);
      assert (set x | x in s) == {s[0]} + (set x | x in s[1..]);
    }
  }

  // ------------------------------------------------------------- the algorithm

  /** A set per declared model, of exactly what it needs. */
  method BuildEdges(g: Table, globals: set<Text>) returns (remaining: Edges)
    ensures forall n :: n in remaining <==> Declared(g, n)
    ensures forall n, t :: n in remaining && t in remaining[n] <==> Needs(g, globals, n, t)
    ensures remaining == EdgesIn(g, globals)
  {
    hide Needs, Declared;
    EdgesAreNeeds(g, globals);
    remaining := map[];
    for i := 0 to |g|
      invariant forall n :: n in remaining <==> exists j :: 0 <= j < i && g[j].name == n
      invariant forall j :: 0 <= j < i ==> remaining[g[j].name] == EdgesOf(g[j], globals)
    {
      remaining := remaining[g[i].name := EdgesOf(g[i], globals)];
    }
  }

  /** The models of this wave: not yet placed, with everything they need placed. */
  method ReadyModels(nodes: seq<Text>, remaining: Edges, placed: set<Text>) returns (ready: seq<Text>)
    requires NoDuplicates(nodes) && Lists(nodes, remaining.Keys)
    ensures ready == Enumerate(Ready(remaining, placed))
  {
    var found: seq<Text> := [];
    for i := 0 to |nodes|
      invariant NoDuplicates(found)
      invariant forall n :: n in found ==> n in nodes[..i] && n !in placed && remaining[n] <= placed
      invariant forall n :: n in nodes[..i] && n !in placed && remaining[n] <= placed ==> n in found
    {
      var n := nodes[i];
      assert nodes[..i + 1] == nodes[..i] + [n];
      if n !in placed && remaining[n] <= placed {
        assert n !in found;
        AppendDistinct(found, n);
        found := found + [n];
      }
    }
    assert nodes[..|nodes|] == nodes;
    ready := Sort(found);
    AscendingUnique(ready, Enumerate(Ready(remaining, placed)));
  }

  ghost predicate Lists(nodes: seq<Text>, names: set<Text>) {
    forall n :: n in nodes <==> n in names
  }

  lemma AppendDistinct<T>(s: seq<T>, x: T)
    requires NoDuplicates(s) && x !in s
    ensures NoDuplicates(s + [x])
  {
  }

  /** Models still blocked when a wave comes up empty, in declaration order. */
  function Stuck(nodes: seq<Text>, placed: set<Text>): (stuck: seq<Text>)
    ensures forall n :: n in stuck <==> n in nodes && n !in placed
  {
    if nodes == [] then []
    else (if nodes[0] in placed then [] else [nodes[0]]) + Stuck(nodes[1..], placed)
  }

  /** Every blocked model needs something that is blocked too, or that is no model at all. */
  ghost predicate Blocked(edges: Edges, stuck: seq<Text>) {
    && stuck != []
    && forall n :: n in stuck ==> n in edges && exists t :: t in edges[n] && (t in edges ==> t in stuck)
  }

  /** The loop of the sort: place a wave of ready models until all are placed or none is ready. */
  method PlaceAll(nodes: seq<Text>, remaining: Edges) returns (r: Result<seq<Text>, seq<Text>>)
    requires NoDuplicates(nodes) && Lists(nodes, remaining.Keys)
    ensures match OrderFrom(remaining, {})
            case Some(order) => r == Ok(order)
            case None => r.Err? && Blocked(remaining, r.error)
  {
    var ordered: seq<Text> := [];
    var placed: set<Text> := {};
    PlacingStarts(nodes, remaining);
    while |ordered| < |nodes|
      invariant Placing(nodes, remaining, ordered, placed)
      decreases |nodes| - |ordered|
    {
      var ready := ReadyModels(nodes, remaining, placed);
      if ready == [] {
        PlacingStalls(nodes, remaining, ordered, placed);
        return Err(Stuck(nodes, placed));
      }
      PlacingAdvances(nodes, remaining, ordered, placed, ready);
      ordered, placed := PlaceWave(ready, ordered, placed, Ready(remaining, placed));
    }
    PlacingEnds(nodes, remaining, ordered, placed);
    r := Ok(ordered);
  }

  /** What the loop knows: the placed models, in order, and that the order goes on from there. */
  ghost predicate Placing(nodes: seq<Text>, edges: Edges, ordered: seq<Text>, placed: set<Text>) {
    && NoDuplicates(nodes) && Lists(nodes, edges.Keys)
    && NoDuplicates(ordered) && Lists(ordered, placed)
    && placed <= edges.Keys
    && Continues(OrderFrom(edges, {}), ordered, OrderFrom(edges, placed))
  }

  lemma PlacingStarts(nodes: seq<Text>, edges: Edges)
    requires NoDuplicates(nodes) && Lists(nodes, edges.Keys)
    ensures Placing(nodes, edges, [], {})
  {
    var whole := OrderFrom(edges, {});
    assert whole.Some? ==> [] + whole.value == whole.value;
  }

  lemma PlacingAdvances(nodes: seq<Text>, edges: Edges, ordered: seq<Text>, placed: set<Text>, ready: seq<Text>)
    requires Placing(nodes, edges, ordered, placed)
    requires ready == Enumerate(Ready(edges, placed)) && ready != []
    ensures Placing(nodes, edges, ordered + ready, placed + Ready(edges, placed))
  {
    WaveStep(edges, placed, ordered, ready);
    ContinuesTransitively(OrderFrom(edges, {}), ordered, OrderFrom(edges, placed), ready,
                          OrderFrom(edges, placed + Ready(edges, placed)));
  }

  lemma PlacingStalls(nodes: seq<Text>, edges: Edges, ordered: seq<Text>, placed: set<Text>)
    requires Placing(nodes, edges, ordered, placed) && |ordered| < |nodes|
    requires Enumerate(Ready(edges, placed)) == []
    ensures OrderFrom(edges, {}) == None && Blocked(edges, Stuck(nodes, placed))
  {
    ListSize(ordered, placed);
    ListSize(nodes, edges.Keys);
    if edges.Keys <= placed {
      SubsetSize(edges.Keys, placed);
    }
    assert forall t :: t in Enumerate(Ready(edges, placed)) <==> t in Ready(edges, placed);
    StuckIsBlocked(nodes, edges, placed);
  }

  lemma PlacingEnds(nodes: seq<Text>, edges: Edges, ordered: seq<Text>, placed: set<Text>)
    requires Placing(nodes, edges, ordered, placed) && |ordered| >= |nodes|
    ensures OrderFrom(edges, {}) == Some(ordered)
  {
    ListSize(ordered, placed);
    ListSize(nodes, edges.Keys);
    EqualSize(placed, edges.Keys);
    assert ordered + [] == ordered;
  }

  method PlaceWave(ready: seq<Text>, ordered: seq<Text>, placed: set<Text>, ghost wave: set<Text>)
    returns (ordered': seq<Text>, placed': set<Text>)
    requires Lists(ready, wave)
    ensures ordered' == ordered + ready && placed' == placed + wave
  {
    ordered', placed' := ordered, placed;
    for k := 0 to |ready|
      invariant ordered' == ordered + ready[..k]
      invariant placed <= placed' <= placed + wave
      invariant forall n :: n in ready[..k] ==> n in placed'
    {
      assert ready[..k + 1] == ready[..k] + [ready[k]] && ready[k] in ready;
      ordered' := ordered' + [ready[k]];
      placed' := placed' + {ready[k]};
    }
    assert ready[..|ready|] == ready;
    assert forall n :: n in wave ==> n in ready;
  }

  /** `whole` is what comes of `rest` once `prefix` is put in front of it. */
  ghost predicate Continues(whole: Option<seq<Text>>, prefix: seq<Text>, rest: Option<seq<Text>>) {
    match rest
    case None => whole == None
    case Some(tail) => whole == Some(prefix + tail)
  }

  lemma ContinuesTransitively(whole: Option<seq<Text>>, prefix: seq<Text>, middle: Option<seq<Text>>, wave: seq<Text>, rest: Option<seq<Text>>)
    requires Continues(whole, prefix, middle) && Continues(middle, wave, rest)
    ensures Continues(whole, prefix + wave, rest)
  {
    if rest.Some? {
      assert prefix + (wave + rest.value) == (prefix + wave) + rest.value;
    }
  }

  lemma ListSize(s: seq<Text>, names: set<Text>)
    requires NoDuplicates(s) && Lists(s, names)
    ensures |names| == |s|
  {
    DistinctSize(s);
    assert names == (set x | x in s);
  }

  lemma StuckIsBlocked(nodes: seq<Text>, edges: Edges, placed: set<Text>)
    requires Lists(nodes, edges.Keys) && Ready(edges, placed) == {} && !(edges.Keys <= placed)
    ensures OrderFrom(edges, placed) == None && Blocked(edges, Stuck(nodes, placed))
  {
    var stuck := Stuck(nodes, placed);
    var missing :| missing in edges.Keys && missing !in placed;
    assert missing in stuck;
    forall n | n in stuck
      ensures n in edges && exists t :: t in edges[n] && (t in edges ==> t in stuck)
    {
      assert n !in Ready(edges, placed);
      var t :| t in edges[n] && t !in placed;
    }
  }

  lemma WaveStep(edges: Edges, before: set<Text>, prefix: seq<Text>, ready: seq<Text>)
    requires ready == Enumerate(Ready(edges, before)) && ready != []
    requires NoDuplicates(prefix) && Lists(prefix, before)
    ensures NoDuplicates(prefix + ready) && Lists(prefix + ready, before + Ready(edges, before))
    ensures Continues(OrderFrom(edges, before), ready, OrderFrom(edges, before + Ready(edges, before)))
  {
    assert ready[0] in Ready(edges, before);
    forall n
      ensures n in prefix + ready <==> n in before + Ready(edges, before)
    {
    }
    forall i, j | 0 <= i < |prefix| && 0 <= j < |ready|
      ensures prefix[i] != ready[j]
    {
      assert prefix[i] in prefix && ready[j] in ready;
    }
  }

  lemma EqualSize(a: set<Text>, b: set<Text>)
    requires a <= b && |a| >= |b|
    ensures a == b
  {
    assert b == a + (b - a);
  }

  /** `Object.keys` of the table. */
  function Names(g: Table): (names: seq<Text>)
    ensures NoDuplicates(names) && |names| == |g|
    ensures forall n :: n in names <==> exists d :: d in g && d.name == n
  {
    var names := seq(|g|, i requires 0 <= i < |g| => g[i].name);
    assert forall n :: n in names <==> exists d :: d in g && d.name == n by {
      forall n
        ensures n in names <==> exists d :: d in g && d.name == n
      {
        if n in names {
          var i :| 0 <= i < |names| && names[i] == n;
          assert g[i] in g;
        }
        if d :| d in g && d.name == n {
          var i :| 0 <= i < |g| && g[i] == d;
          assert names[i] == n;
        }
      }
    }
    names
  }

  // --------------------------------------------------------------- the theorems

  /** A permutation of the models in which everything a model needs comes before it. */
  ghost predicate InsertOrder(edges: Edges, order: seq<Text>) {
    && NoDuplicates(order)
    && Lists(order, edges.Keys)
    && TargetsFirst(edges, {}, order)
  }

  /** Deletes run the other way round: nothing is removed before what points at it. */
  ghost predicate DeleteOrder(edges: Edges, order: seq<Text>) {
    && NoDuplicates(order)
    && Lists(order, edges.Keys)
    && (forall i :: 0 <= i < |order| ==> order[i] in edges)
    && forall i, t :: 0 <= i < |order| && t in edges[order[i]] ==> exists j :: i < j < |order| && order[j] == t
  }

  function Reverse<T>(s: seq<T>): (r: seq<T>)
    ensures |r| == |s| && forall i :: 0 <= i < |s| ==> r[i] == s[|s| - 1 - i]
  {
    seq(|s|, i requires 0 <= i < |s| => s[|s| - 1 - i])
  }

  /** Every target of a model is already placed or comes earlier in `o`. */
  ghost predicate TargetsFirst(edges: Edges, placed: set<Text>, o: seq<Text>) {
    && (forall i :: 0 <= i < |o| ==> o[i] in edges)
    && forall i, t :: 0 <= i < |o| && t in edges[o[i]] ==> t in placed || exists j :: 0 <= j < i && o[j] == t
  }

  lemma EarlierTarget(edges: Edges, placed: set<Text>, o: seq<Text>, i: nat, t: Text) returns (j: nat)
    requires TargetsFirst(edges, placed, o) && i < |o| && t in edges[o[i]] && t !in placed
    ensures j < i && o[j] == t
  {
    j :| 0 <= j < i && o[j] == t;
  }

  lemma {:induction false} OrderFromIsSound(edges: Edges, placed: set<Text>)
    requires placed <= edges.Keys && OrderFrom(edges, placed).Some?
    ensures NoDuplicates(OrderFrom(edges, placed).value)
    ensures Lists(OrderFrom(edges, placed).value, edges.Keys - placed)
    ensures TargetsFirst(edges, placed, OrderFrom(edges, placed).value)
    decreases |edges.Keys - placed|
  {
    var ready := Ready(edges, placed);
    if !(edges.Keys <= placed) {
      SmallerRest(edges, placed);
      OrderFromIsSound(edges, placed + ready);
      WaveInFront(edges, placed, Enumerate(ready), OrderFrom(edges, placed + ready).value);
    }
  }

  lemma WaveInFront(edges: Edges, placed: set<Text>, wave: seq<Text>, rest: seq<Text>)
    requires placed <= edges.Keys && wave == Enumerate(Ready(edges, placed))
    requires NoDuplicates(rest) && Lists(rest, edges.Keys - (placed + Ready(edges, placed)))
    requires TargetsFirst(edges, placed + Ready(edges, placed), rest)
    ensures NoDuplicates(wave + rest) && Lists(wave + rest, edges.Keys - placed)
    ensures TargetsFirst(edges, placed, wave + rest)
  {
    hide Enumerate;
    var o := wave + rest;
    forall n
      ensures n in o <==> n in edges.Keys - placed
    {
    }
    forall i, j | 0 <= i < |wave| && 0 <= j < |rest|
      ensures wave[i] != rest[j]
    {
      assert wave[i] in wave && rest[j] in rest;
    }
    forall i | 0 <= i < |o|
      ensures o[i] in edges
    {
      assert o[i] in o;
      assert o[i] in edges.Keys;
    }
    forall i, t | 0 <= i < |o| && t in edges[o[i]]
      ensures t in placed || exists j :: 0 <= j < i && o[j] == t
    {
      WaveThenRest(edges, placed, wave, rest, i, t);
    }
  }

  lemma WaveThenRest(edges: Edges, placed: set<Text>, wave: seq<Text>, rest: seq<Text>, i: nat, t: Text)
    requires forall n :: n in wave <==> n in Ready(edges, placed)
    requires TargetsFirst(edges, placed + Ready(edges, placed), rest)
    requires i < |wave + rest| && (wave + rest)[i] in edges && t in edges[(wave + rest)[i]]
    ensures t in placed || exists j :: 0 <= j < i && (wave + rest)[j] == t
  {
    var o := wave + rest;
    if i < |wave| {
      assert o[i] in wave;
    } else if t !in placed {
      var k := i - |wave|;
      assert o[i] == rest[k];
      if t in Ready(edges, placed) {
        assert t in wave;
        var j :| 0 <= j < |wave| && wave[j] == t;
        assert o[j] == t;
      } else {
        var j :| 0 <= j < k && rest[j] == t;
        assert o[|wave| + j] == t;
      }
    }
  }

  /** The order is a permutation of the models with parents first; reversed, children come first. */
  lemma OrderPutsParentsFirst(edges: Edges)
    requires OrderFrom(edges, {}).Some?
    ensures InsertOrder(edges, OrderFrom(edges, {}).value)
    ensures DeleteOrder(edges, Reverse(OrderFrom(edges, {}).value))
  {
    OrderFromIsSound(edges, {});
    ReversedOrder(edges, OrderFrom(edges, {}).value);
  }

  lemma ReversedOrder(edges: Edges, o: seq<Text>)
    requires InsertOrder(edges, o)
    ensures DeleteOrder(edges, Reverse(o))
  {
    var d := Reverse(o);
    forall n
      ensures n in d <==> n in o
    {
      if n in o {
        var i :| 0 <= i < |o| && o[i] == n;
        assert d[|o| - 1 - i] == n;
      }
    }
    forall i, t | 0 <= i < |d| && t in edges[d[i]]
      ensures exists j :: i < j < |d| && d[j] == t
    {
      var k := |o| - 1 - i;
      var j := EarlierTarget(edges, {}, o, k, t);
      assert d[|o| - 1 - j] == t;
    }
  }

  ghost predicate Dangling(edges: Edges) {
    exists n, t :: n in edges && t in edges[n] && t !in edges
  }

  /** Each model of the walk points at the next one. */
  ghost predicate Walk(edges: Edges, p: seq<Text>) {
    && (forall i :: 0 <= i < |p| ==> p[i] in edges)
    && forall i, j :: 0 <= i && j == i + 1 < |p| ==> p[j] in edges[p[i]]
  }

  ghost predicate Cycle(edges: Edges, p: seq<Text>) {
    |p| >= 2 && Walk(edges, p) && p[0] == p[|p| - 1]
  }

  ghost predicate Cyclic(edges: Edges) {
    exists p: seq<Text> :: Cycle(edges, p)
  }

  ghost function Position(o: seq<Text>, n: Text): (i: nat)
    requires n in o
    ensures i < |o| && o[i] == n
  {
    var i :| 0 <= i < |o| && o[i] == n;
    i
  }

  lemma {:induction false} WalksGoBack(edges: Edges, o: seq<Text>, p: seq<Text>)
    requires InsertOrder(edges, o)
    requires |p| >= 2 && Walk(edges, p)
    ensures p[0] in o && p[|p| - 1] in o && Position(o, p[|p| - 1]) < Position(o, p[0])
  {
    assert p[0] in edges.Keys && p[1] in edges.Keys && p[1] in edges[p[0]];
    var i := Position(o, p[0]);
    var j := EarlierTarget(edges, {}, o, i, p[1]);
    assert Position(o, p[1]) == j;
    if |p| > 2 {
      var tail := p[1..];
      assert forall k :: 0 <= k < |tail| ==> tail[k] == p[k + 1];
      WalksGoBack(edges, o, tail);
    }
  }

  ghost predicate Unresolved(edges: Edges, stuck: set<Text>) {
    && stuck <= edges.Keys && stuck != {}
    && forall n {:trigger WaitsWithin(edges, stuck, n)} :: n in stuck ==> WaitsWithin(edges, stuck, n)
  }

  ghost predicate WaitsWithin(edges: Edges, stuck: set<Text>, n: Text)
    requires n in edges
  {
    exists t :: t in edges[n] && t in stuck
  }

  /** Models that all wait on one another can be walked for ever. */
  lemma {:induction false} LongWalk(edges: Edges, stuck: set<Text>, length: nat) returns (p: seq<Text>)
    requires Unresolved(edges, stuck)
    ensures |p| == length + 1 && Walk(edges, p) && forall i :: 0 <= i < |p| ==> p[i] in stuck
  {
    if length == 0 {
      var n :| n in stuck;
      p := [n];
    } else {
      var q := LongWalk(edges, stuck, length - 1);
      var last := q[|q| - 1];
      assert WaitsWithin(edges, stuck, last);
      var t :| t in edges[last] && t in stuck;
      p := q + [t];
    }
  }

  /** A walk longer than the set it stays in comes back to where it was. */
  lemma WalkRepeats(edges: Edges, stuck: set<Text>)
    requires Unresolved(edges, stuck)
    ensures Cyclic(edges)
  {
    var p := LongWalk(edges, stuck, |stuck|);
    if NoDuplicates(p) {
      DistinctSize(p);
      SubsetSize((set n | n in p), stuck);
    }
    var i, j :| 0 <= i < j < |p| && p[i] == p[j];
    SubWalk(edges, p, i, j);
    assert Cycle(edges, p[i..j + 1]);
  }

  lemma SubWalk(edges: Edges, p: seq<Text>, i: nat, j: nat)
    requires Walk(edges, p) && i < j < |p|
    ensures Walk(edges, p[i..j + 1])
  {
    var c := p[i..j + 1];
    assert forall k :: 0 <= k < |c| ==> c[k] == p[i + k];
  }

  lemma {:induction false} FailureLeavesStuckModels(edges: Edges, placed: set<Text>)
    requires placed <= edges.Keys && OrderFrom(edges, placed) == None
    ensures Dangling(edges) || Cyclic(edges)
    decreases |edges.Keys - placed|
  {
    var ready := Ready(edges, placed);
    if ready != {} {
      SmallerRest(edges, placed);
      FailureLeavesStuckModels(edges, placed + ready);
    } else if !Dangling(edges) {
      var stuck := edges.Keys - placed;
      assert exists n :: n in edges.Keys && n in stuck;
      forall n | n in stuck
        ensures WaitsWithin(edges, stuck, n)
      {
        assert n !in Ready(edges, placed);
        var t :| t in edges[n] && t !in placed;
        assert t in edges;
      }
      WalkRepeats(edges, stuck);
    }
  }

  /** The sort fails exactly when some target is not a model or the references run in a circle. */
  lemma FailsExactlyOnCycles(edges: Edges)
    ensures OrderFrom(edges, {}) == None <==> Dangling(edges) || Cyclic(edges)
  {
    if OrderFrom(edges, {}) == None {
      FailureLeavesStuckModels(edges, {});
    } else {
      OrderPutsParentsFirst(edges);
      ForwardOrderRulesOutCycles(edges, OrderFrom(edges, {}).value);
    }
  }

  lemma ForwardOrderRulesOutCycles(edges: Edges, o: seq<Text>)
    requires InsertOrder(edges, o)
    ensures !Dangling(edges) && !Cyclic(edges)
  {
    forall n, t | n in edges && t in edges[n]
      ensures t in edges
    {
      assert n in edges.Keys;
      var i := Position(o, n);
      var j := EarlierTarget(edges, {}, o, i, t);
      assert o[j] in o;
    }
    forall p: seq<Text> | |p| >= 2 && Walk(edges, p)
      ensures p[0] != p[|p| - 1]
    {
      WalksGoBack(edges, o, p);
    }
  }

  ghost function TargetSet(d: Declaration): set<Text> {
    set t | t in d.targets
  }

  /** Two tables that declare the same models with the same targets, in whatever order. */
  ghost predicate SameDeclarations(g: Table, h: Table) {
    && (forall d {:trigger DeclaredIn(d, h)} :: d in g ==> DeclaredIn(d, h))
    && (forall d {:trigger DeclaredIn(d, g)} :: d in h ==> DeclaredIn(d, g))
  }

  ghost predicate DeclaredIn(d: Declaration, g: Table) {
    exists e :: e in g && e.name == d.name && TargetSet(e) == TargetSet(d)
  }

  /** Neither the order of the table nor the order of a model's targets changes the result. */
  lemma OrderIgnoresDeclarationOrder(g: Table, h: Table, globals: set<Text>)
    requires SameDeclarations(g, h)
    ensures EdgesIn(g, globals) == EdgesIn(h, globals)
    ensures OrderFrom(EdgesIn(g, globals), {}) == OrderFrom(EdgesIn(h, globals), {})
  {
    EdgesCarryOver(g, h, globals);
    EdgesCarryOver(h, g, globals);
    assert EdgesIn(g, globals).Keys == EdgesIn(h, globals).Keys;
  }

  lemma EdgesCarryOver(g: Table, h: Table, globals: set<Text>)
    requires SameDeclarations(g, h)
    ensures forall n :: n in EdgesIn(g, globals) ==> n in EdgesIn(h, globals) && EdgesIn(h, globals)[n] == EdgesIn(g, globals)[n]
  {
    forall n | n in EdgesIn(g, globals)
      ensures n in EdgesIn(h, globals) && EdgesIn(h, globals)[n] == EdgesIn(g, globals)[n]
    {
      var d :| d in g && d.name == n;
      assert DeclaredIn(d, h);
      var e :| e in h && e.name == n && TargetSet(e) == TargetSet(d);
      assert EdgesIn(g, globals)[n] == EdgesOf(d, globals);
      assert EdgesIn(h, globals)[n] == EdgesOf(e, globals);
      SameEdges(d, e, globals);
    }
  }

  lemma SameEdges(d: Declaration, e: Declaration, globals: set<Text>)
    requires d.name == e.name && TargetSet(d) == TargetSet(e)
    ensures EdgesOf(d, globals) == EdgesOf(e, globals)
  {
    forall t
      ensures t in EdgesOf(d, globals) <==> t in EdgesOf(e, globals)
    {
      assert t in TargetSet(d) <==> t in TargetSet(e);
    }
  }

  // ------------------------------------------------------------- which order

  /** The model has `k` others one behind the other below it. */
  ghost predicate Deep(edges: Edges, n: Text, k: nat) {
    exists p: seq<Text> :: |p| == k + 1 && p[0] == n && Walk(edges, p)
  }

  ghost predicate NoDeeper(edges: Edges, a: Text, b: Text) {
    forall k: nat :: Deep(edges, a, k) ==> Deep(edges, b, k)
  }

  lemma DeepStep(edges: Edges, n: Text, k: nat)
    requires n in edges && !Dangling(edges)
    ensures Deep(edges, n, 0)
    ensures Deep(edges, n, k + 1) <==> exists t :: t in edges[n] && Deep(edges, t, k)
    ensures Deep(edges, n, k + 1) ==> Deep(edges, n, k)
  {
    assert Walk(edges, [n]);
    if Deep(edges, n, k + 1) {
      var p: seq<Text> :| |p| == k + 2 && p[0] == n && Walk(edges, p);
      SubWalk(edges, p, 0, |p| - 1);
      assert p[0..|p|] == p;
      var tail := p[1..];
      assert Walk(edges, tail) by {
        assert forall i :: 0 <= i < |tail| ==> tail[i] == p[i + 1];
      }
      assert tail[0] in edges[n] && Deep(edges, tail[0], k);
      var front := p[..k + 1];
      assert Walk(edges, front) by {
        assert forall i :: 0 <= i < |front| ==> front[i] == p[i];
      }
    }
    if t :| t in edges[n] && Deep(edges, t, k) {
      var q: seq<Text> :| |q| == k + 1 && q[0] == t && Walk(edges, q);
      var p := [n] + q;
      assert forall i :: 0 < i < |p| ==> p[i] == q[i - 1];
      assert Walk(edges, p);
    }
  }

  lemma {:induction false} DeepDown(edges: Edges, n: Text, k: nat, l: nat)
    requires n in edges && !Dangling(edges) && Deep(edges, n, k) && l <= k
    ensures Deep(edges, n, l)
    decreases k
  {
    if l < k {
      DeepStep(edges, n, k - 1);
      DeepDown(edges, n, k - 1, l);
    }
  }

  /** The models of a wave are those that are exactly so deep. */
  ghost predicate PlacedSoFar(edges: Edges, placed: set<Text>, w: nat) {
    forall n :: n in placed <==> n in edges && !Deep(edges, n, w)
  }

  lemma WaveDepth(edges: Edges, placed: set<Text>, w: nat)
    requires !Dangling(edges) && PlacedSoFar(edges, placed, w)
    ensures forall n :: n in Ready(edges, placed) <==> n in edges && Deep(edges, n, w) && !Deep(edges, n, w + 1)
    ensures PlacedSoFar(edges, placed + Ready(edges, placed), w + 1)
  {
    hide Deep;
    forall n | n in edges
      ensures n in Ready(edges, placed) <==> Deep(edges, n, w) && !Deep(edges, n, w + 1)
      ensures Deep(edges, n, w + 1) ==> Deep(edges, n, w)
    {
      DeepStep(edges, n, w);
      assert forall t :: t in edges[n] ==> t in edges;
    }
  }

  /** Shallow models first, and those of the same depth by name. */
  ghost predicate ByDepthThenName(edges: Edges, a: Text, b: Text) {
    NoDeeper(edges, a, b) && (NoDeeper(edges, b, a) ==> Less(a, b))
  }

  lemma AfterItsDepth(edges: Edges, w: nat, a: Text, b: Text)
    requires !Dangling(edges) && a in edges && b in edges && !Deep(edges, a, w + 1) && Deep(edges, b, w)
    ensures NoDeeper(edges, a, b)
    ensures Deep(edges, b, w + 1) ==> !NoDeeper(edges, b, a)
  {
    hide Deep;
    forall k: nat | Deep(edges, a, k)
      ensures Deep(edges, b, k)
    {
      if k > w {
        DeepDown(edges, a, k, w + 1);
      }
      DeepDown(edges, b, w, k);
    }
  }

  lemma FirstOfWave(edges: Edges, w: nat, a: Text, b: Text)
    requires !Dangling(edges) && a in edges && b in edges && !Deep(edges, a, w + 1)
    requires Deep(edges, b, w + 1) || (Deep(edges, b, w) && Less(a, b))
    ensures ByDepthThenName(edges, a, b)
  {
    hide Deep, NoDeeper, Dangling;
    if Deep(edges, b, w + 1) {
      DeepDown(edges, b, w + 1, w);
    }
    AfterItsDepth(edges, w, a, b);
  }

  lemma WaveAndRest(edges: Edges, placed: set<Text>)
    requires placed <= edges.Keys && OrderFrom(edges, placed).Some? && OrderFrom(edges, placed).value != []
    ensures Ready(edges, placed) != {} && placed + Ready(edges, placed) <= edges.Keys
    ensures OrderFrom(edges, placed + Ready(edges, placed)).Some?
    ensures OrderFrom(edges, placed).value == Enumerate(Ready(edges, placed)) + OrderFrom(edges, placed + Ready(edges, placed)).value
  {
  }

  lemma {:induction false} WavesByDepth(edges: Edges, placed: set<Text>, w: nat, i: nat, j: nat)
    requires !Dangling(edges) && placed <= edges.Keys && PlacedSoFar(edges, placed, w)
    requires OrderFrom(edges, placed).Some? && i < j < |OrderFrom(edges, placed).value|
    ensures ByDepthThenName(edges, OrderFrom(edges, placed).value[i], OrderFrom(edges, placed).value[j])
    decreases |edges.Keys - placed|
  {
    hide OrderFrom, Deep, ByDepthThenName, Dangling, Ready, PlacedSoFar;
    var wave, next := Enumerate(Ready(edges, placed)), placed + Ready(edges, placed);
    WaveAndRest(edges, placed);
    WaveDepth(edges, placed, w);
    SmallerRest(edges, placed);
    var rest := OrderFrom(edges, next).value;
    if i >= |wave| {
      WavesByDepth(edges, next, w + 1, i - |wave|, j - |wave|);
    } else if j < |wave| {
      InTurn(wave, i, j);
      assert wave[i] in wave && wave[j] in wave;
      FirstOfWave(edges, w, wave[i], wave[j]);
    } else {
      assert wave[i] in wave;
      RestOfOrder(edges, next, j - |wave|);
      assert Deep(edges, rest[j - |wave|], w + 1) by { NotYetPlaced(edges, next, w + 1, rest[j - |wave|]); }
      FirstOfWave(edges, w, wave[i], rest[j - |wave|]);
    }
  }

  lemma NotYetPlaced(edges: Edges, placed: set<Text>, w: nat, n: Text)
    requires PlacedSoFar(edges, placed, w) && n in edges && n !in placed
    ensures Deep(edges, n, w)
  {
  }

  lemma InTurn(s: seq<Text>, i: nat, j: nat)
    requires Ascending(s) && i < j < |s|
    ensures Less(s[i], s[j])
  {
  }

  lemma RestOfOrder(edges: Edges, placed: set<Text>, i: nat)
    requires placed <= edges.Keys && OrderFrom(edges, placed).Some? && i < |OrderFrom(edges, placed).value|
    ensures OrderFrom(edges, placed).value[i] in edges && OrderFrom(edges, placed).value[i] !in placed
  {
    hide OrderFrom;
    OrderFromIsSound(edges, placed);
    assert OrderFrom(edges, placed).value[i] in OrderFrom(edges, placed).value;
  }

  /** Which of the possible orders it is: shallow models first, and those of the same depth in ascending order. */
  lemma OrderIsByDepthThenName(edges: Edges, i: nat, j: nat)
    requires OrderFrom(edges, {}).Some? && i < j < |OrderFrom(edges, {}).value|
    ensures ByDepthThenName(edges, OrderFrom(edges, {}).value[i], OrderFrom(edges, {}).value[j])
  {
    hide ByDepthThenName;
    FailsExactlyOnCycles(edges);
    forall n | n in edges
      ensures Deep(edges, n, 0)
    {
      DeepStep(edges, n, 0);
    }
    WavesByDepth(edges, {}, 0, i, j);
  }

  // ------------------------------------------------------------- over the table itself

  /** Every declared model once and nothing else, each behind all that it needs. */
  ghost predicate ParentsFirst(g: Table, globals: set<Text>, order: seq<Text>) {
    && NoDuplicates(order)
    && (forall n :: n in order <==> Declared(g, n))
    && forall i, t :: 0 <= i < |order| && Needs(g, globals, order[i], t) ==> exists j :: 0 <= j < i && order[j] == t
  }

  /** Something needed is declared nowhere. */
  ghost predicate Undeclared(g: Table, globals: set<Text>) {
    exists n, t :: Needs(g, globals, n, t) && !Declared(g, t)
  }

  /** A model that needs another, which needs another, and so on back to the first. */
  ghost predicate NeedsInCircle(g: Table, globals: set<Text>, p: seq<Text>) {
    |p| >= 2 && p[0] == p[|p| - 1] && forall i, j :: 0 <= i && j == i + 1 < |p| ==> Needs(g, globals, p[i], p[j])
  }

  lemma DanglesOrCircles(g: Table, globals: set<Text>)
    ensures Dangling(EdgesIn(g, globals)) || Cyclic(EdgesIn(g, globals))
       <==> Undeclared(g, globals) || exists p :: NeedsInCircle(g, globals, p)
  {
    hide EdgesIn, Needs, Declared;
    var edges := EdgesIn(g, globals);
    EdgesAreNeeds(g, globals);
    if Undeclared(g, globals) {
      var n, t :| Needs(g, globals, n, t) && !Declared(g, t);
      assert n in edges && t in edges[n];
    }
    if Dangling(edges) {
      var n, t :| n in edges && t in edges[n] && t !in edges;
      assert Needs(g, globals, n, t) && !Declared(g, t);
    }
    forall p: seq<Text> | |p| >= 2 && p[0] == p[|p| - 1]
      ensures Cycle(edges, p) <==> NeedsInCircle(g, globals, p)
    {
      CircleIsCycle(g, globals, p);
    }
  }

  lemma CircleIsCycle(g: Table, globals: set<Text>, p: seq<Text>)
    requires |p| >= 2 && p[0] == p[|p| - 1]
    ensures Cycle(EdgesIn(g, globals), p) <==> NeedsInCircle(g, globals, p)
  {
    hide EdgesIn, Needs, Declared;
    var edges := EdgesIn(g, globals);
    EdgesAreNeeds(g, globals);
    if NeedsInCircle(g, globals, p) {
      forall i | 0 <= i < |p|
        ensures p[i] in edges
      {
        var k := if i == |p| - 1 then 0 else i;
        assert Needs(g, globals, p[k], p[k + 1]);
        assert p[k] in edges;
      }
    }
  }

  lemma OrderOfTable(g: Table, globals: set<Text>)
    ensures var r := OrderFrom(EdgesIn(g, globals), {});
            && (r.Some? ==> ParentsFirst(g, globals, r.value))
            && (r.None? <==> Undeclared(g, globals) || exists p :: NeedsInCircle(g, globals, p))
  {
    hide EdgesIn, Needs, Declared, Undeclared, NeedsInCircle, Dangling, Cyclic;
    var edges := EdgesIn(g, globals);
    EdgesAreNeeds(g, globals);
    FailsExactlyOnCycles(edges);
    DanglesOrCircles(g, globals);
    if OrderFrom(edges, {}).Some? {
      OrderPutsParentsFirst(edges);
      var order := OrderFrom(edges, {}).value;
      assert forall n :: n in edges <==> n in edges.Keys;
      forall i, t | 0 <= i < |order| && Needs(g, globals, order[i], t)
        ensures exists j :: 0 <= j < i && order[j] == t
      {
        var j := EarlierTarget(edges, {}, order, i, t);
      }
    }
  }

  /**
   The whole sort: edges without global targets and self-references, then waves. It puts every model behind all that
   the table says it needs, and fails exactly if something needed is declared nowhere or needs run in a circle.
   */
  method TopologicalOrder(g: Table, globals: set<Text>) returns (r: Result<seq<Text>, seq<Text>>)
    ensures r.Ok? ==> ParentsFirst(g, globals, r.value)
    ensures r.Err? <==> Undeclared(g, globals) || exists p :: NeedsInCircle(g, globals, p)
    ensures r.Err? ==> Blocked(EdgesIn(g, globals), r.error)
    ensures r.Ok? ==> OrderFrom(EdgesIn(g, globals), {}) == Some(r.value)
  {
    hide Needs, Declared, Undeclared, NeedsInCircle, ParentsFirst;
    OrderOfTable(g, globals);
    var remaining := BuildEdges(g, globals);
    var nodes := Names(g);
    r := PlaceAll(nodes, remaining);
  }
}
