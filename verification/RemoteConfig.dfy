/**
 Resolution of the layered remote configuration: the layers that match the context are sorted by
 priority, keeping the input order among equals, and their values are laid over each other.
 */
module RemoteConfig {
  datatype Primitive = StringValue(s: string) | NumberValue(n: real) | BoolValue(b: bool) | NullValue

  /** A condition's expected value, and what the context holds under its key. */
  datatype Expected = Exactly(value: Primitive) | OneOf(options: seq<string>)
  datatype Actual = Absent | Single(s: string) | Many(items: seq<string>)

  type Context = map<string, Actual>

  datatype Layer<V> = Layer(id: string, priority: real, conditions: map<string, Expected>, values: map<string, V>)

  /** `String(actual)` for a context value that is no list. */
  function Shown(actual: Actual): string {
    if actual.Single? then actual.s else "undefined"
  }

  predicate Meets(actual: Actual, expected: Expected) {
    match expected
    case OneOf(options) =>
      if actual.Many? then exists i :: 0 <= i < |options| && options[i] in actual.items
      else Shown(actual) in options
    case Exactly(value) => actual.Single? && value == StringValue(actual.s)
  }

  /** A layer without conditions has an empty map of them. */
  predicate Matches<V>(layer: Layer<V>, context: Context) {
    forall key :: key in layer.conditions ==>
                    Meets(if key in context then context[key] else Absent, layer.conditions[key])
  }

  /**
   When a condition is met. A list meets a list with which it shares an element; a text meets a list that holds it, or
   itself; an absent value meets a list that holds the text "undefined".
   */
  lemma ConditionMeaning(options: seq<string>, items: seq<string>, s: string, value: Primitive)
    ensures Meets(Many(items), OneOf(options)) <==> (set x | x in items) * (set x | x in options) != {}
    ensures Meets(Single(s), OneOf(options)) <==> s in options
    ensures Meets(Absent, OneOf(options)) <==> "undefined" in options
    ensures Meets(Single(s), Exactly(value)) <==> value == StringValue(s)
    ensures !Meets(Many(items), Exactly(value)) && !Meets(Absent, Exactly(value))
  {
    var shared := (set x | x in items) * (set x | x in options);
    if Meets(Many(items), OneOf(options)) {
      var i :| 0 <= i < |options| && options[i] in items;
      assert options[i] in shared;
    }
    if x :| x in shared {
      var i :| 0 <= i < |options| && options[i] == x;
      assert options[i] in items;
    }
  }

  /** A layer matches when each of its conditions is met by what the context holds under the same key. */
  lemma MatchesMeaning<V>(layer: Layer<V>, context: Context)
    ensures layer.conditions == map[] ==> Matches(layer, context)
    ensures Matches(layer, context) <==>
              && (forall key :: key in layer.conditions && key in context ==> Meets(context[key], layer.conditions[key]))
              && (forall key :: key in layer.conditions && key !in context ==> Meets(Absent, layer.conditions[key]))
  {
  }

  // ---------------------------------------------------------------- filtering and sorting

  /** The order of application: by priority, then by position in the input. */
  predicate Before<V>(layers: seq<Layer<V>>, i: nat, j: nat)
    requires i < |layers| && j < |layers|
  {
    layers[i].priority < layers[j].priority || (layers[i].priority == layers[j].priority && i < j)
  }

  ghost predicate InOrder<V>(layers: seq<Layer<V>>, positions: seq<nat>) {
    && (forall a :: 0 <= a < |positions| ==> positions[a] < |layers|)
    && (forall a, b :: 0 <= a < b < |positions| ==> Before(layers, positions[a], positions[b]))
  }

  /** Insertion behind every position that comes before `i`. */
  function Insert<V>(layers: seq<Layer<V>>, i: nat, positions: seq<nat>): (r: seq<nat>)
    requires i < |layers| && forall a :: 0 <= a < |positions| ==> positions[a] < |layers|
    ensures |r| == |positions| + 1
    ensures forall p: nat :: p in r <==> p == i || p in positions
  {
    if positions == [] || layers[i].priority <= layers[positions[0]].priority then [i] + positions
    else
      assert forall p: nat :: p in positions <==> p == positions[0] || p in positions[1..];
      [positions[0]] + Insert(layers, i, positions[1..])
  }

  lemma ConsInOrder<V>(layers: seq<Layer<V>>, p: nat, rest: seq<nat>)
    requires p < |layers| && InOrder(layers, rest)
    requires forall q :: q in rest ==> Before(layers, p, q)
    ensures InOrder(layers, [p] + rest)
  {
    assert forall a :: 0 <= a < |rest| ==> rest[a] in rest;
  }

  lemma {:induction false} InsertInOrder<V>(layers: seq<Layer<V>>, i: nat, positions: seq<nat>)
    requires i < |layers| && InOrder(layers, positions)
    requires forall a :: 0 <= a < |positions| ==> i < positions[a]
    ensures InOrder(layers, Insert(layers, i, positions))
  {
    if positions == [] {
    } else if layers[i].priority <= layers[positions[0]].priority {
      ConsInOrder(layers, i, positions);
    } else {
      var rest := positions[1..];
      InsertInOrder(layers, i, rest);
      forall q | q in Insert(layers, i, rest)
        ensures Before(layers, positions[0], q)
      {
        if q != i {
          var a :| 0 <= a < |rest| && rest[a] == q;
          assert positions[a + 1] == q;
        }
      }
      ConsInOrder(layers, positions[0], Insert(layers, i, rest));
    }
  }

  /** The positions of the matching layers from `from` on, in order of application: filter and stable sort. */
  function Applied<V>(layers: seq<Layer<V>>, context: Context, from: nat): (r: seq<nat>)
    requires from <= |layers|
    ensures InOrder(layers, r)
    ensures forall p: nat :: p in r <==> from <= p < |layers| && Matches(layers[p], context)
    decreases |layers| - from
  {
    if from == |layers| then []
    else
      var rest := Applied(layers, context, from + 1);
      assert forall a :: 0 <= a < |rest| ==> rest[a] in rest;
      if Matches(layers[from], context) then
        InsertInOrder(layers, from, rest);
        Insert(layers, from, rest)
      else rest
  }

  function Overlay<V>(layers: seq<Layer<V>>, positions: seq<nat>): map<string, V>
    requires forall a :: 0 <= a < |positions| ==> positions[a] < |layers|
  {
    if positions == [] then map[]
    else
      var last := |positions| - 1;
      Overlay(layers, positions[..last]) + layers[positions[last]].values
  }

  datatype Resolved<V> = Resolved(values: map<string, V>, appliedLayerIds: seq<string>)

  function Ids<V>(layers: seq<Layer<V>>, positions: seq<nat>): (ids: seq<string>)
    requires forall a :: 0 <= a < |positions| ==> positions[a] < |layers|
  {
    seq(|positions|, a requires 0 <= a < |positions| => layers[positions[a]].id)
  }

  function Resolve<V>(layers: seq<Layer<V>>, context: Context): Resolved<V> {
    var positions := Applied(layers, context, 0);
    Resolved(Overlay(layers, positions), Ids(layers, positions))
  }

  /** The inner loop: each entry of a layer is assigned into the values so far. */
  method AssignEntries<V>(below: map<string, V>, entries: map<string, V>) returns (values: map<string, V>)
    ensures values == below + entries
  {
    values := below;
    var keys := entries.Keys;
    while keys != {}
      invariant keys <= entries.Keys
      invariant values.Keys == below.Keys + (entries.Keys - keys)
      invariant forall k :: k in values ==>
                              values[k] == if k in entries && k !in keys then entries[k] else below[k]
      decreases keys
    {
      var key :| key in keys;
      values := values[key := entries[key]];
      keys := keys - {key};
    }
  }

  method ResolveRemoteConfig<V>(layers: seq<Layer<V>>, context: Context) returns (r: Resolved<V>)
    ensures r == Resolve(layers, context)
  {
    var applied := Applied(layers, context, 0);
    var values: map<string, V> := map[];
    var index := 0;
    while index < |applied|
      invariant 0 <= index <= |applied|
      invariant values == Overlay(layers, applied[..index])
    {
      values := AssignEntries(values, layers[applied[index]].values);
      assert applied[..index + 1][..index] == applied[..index];
      index := index + 1;
    }
    assert applied[..index] == applied;
    r := Resolved(values, Ids(layers, applied));
  }

  // ---------------------------------------------------------------- the declarative meaning

  /** Position w is the matching layer with a value for `key` that is greatest by (priority, position). */
  ghost predicate Wins<V>(layers: seq<Layer<V>>, context: Context, key: string, w: nat) {
    && w < |layers| && Matches(layers[w], context) && key in layers[w].values
    && forall j: nat :: j < |layers| && j != w && Matches(layers[j], context) && key in layers[j].values ==>
         layers[j].priority < layers[w].priority || (layers[j].priority == layers[w].priority && j < w)
  }

  /** Position `a` of the order of application is the last one whose layer has a value for `key`. */
  ghost predicate LastWith<V>(layers: seq<Layer<V>>, positions: seq<nat>, key: string, a: nat)
    requires InOrder(layers, positions)
  {
    && a < |positions| && key in layers[positions[a]].values
    && forall b :: a < b < |positions| ==> key !in layers[positions[b]].values
  }

  lemma {:induction false} OverlayReads<V>(layers: seq<Layer<V>>, positions: seq<nat>, key: string)
    requires InOrder(layers, positions)
    ensures (exists a :: 0 <= a < |positions| && key in layers[positions[a]].values) ==>
              key in Overlay(layers, positions)
    ensures key in Overlay(layers, positions) ==>
              exists a: nat :: LastWith(layers, positions, key, a)
                               && Overlay(layers, positions)[key] == layers[positions[a]].values[key]
  {
    if positions != [] {
      var n := |positions| - 1;
      OverlayReads(layers, positions[..n], key);
      if key in layers[positions[n]].values {
        assert LastWith(layers, positions, key, n);
      } else {
        OverlayPasses(layers, positions, key);
        if key in Overlay(layers, positions[..n]) {
          var a: nat :| LastWith(layers, positions[..n], key, a)
                        && Overlay(layers, positions[..n])[key] == layers[positions[..n][a]].values[key];
          LastWithStays(layers, positions, key, a);
        }
      }
    }
  }

  /** A layer without a value for the key lets the value below show through. */
  lemma OverlayPasses<V>(layers: seq<Layer<V>>, positions: seq<nat>, key: string)
    requires positions != [] && forall a :: 0 <= a < |positions| ==> positions[a] < |layers|
    requires key !in layers[positions[|positions| - 1]].values
    ensures var below := Overlay(layers, positions[..|positions| - 1]);
            && (key in Overlay(layers, positions) <==> key in below)
            && (key in below ==> Overlay(layers, positions)[key] == below[key])
  {
  }

  lemma LastWithStays<V>(layers: seq<Layer<V>>, positions: seq<nat>, key: string, a: nat)
    requires positions != [] && InOrder(layers, positions)
    requires InOrder(layers, positions[..|positions| - 1]) && LastWith(layers, positions[..|positions| - 1], key, a)
    requires key !in layers[positions[|positions| - 1]].values
    ensures LastWith(layers, positions, key, a)
  {
    var n := |positions| - 1;
    assert forall b :: 0 <= b < n ==> positions[..n][b] == positions[b];
  }

  lemma LastIsWinner<V>(layers: seq<Layer<V>>, context: Context, key: string, a: nat)
    requires LastWith(layers, Applied(layers, context, 0), key, a)
    ensures Wins(layers, context, key, Applied(layers, context, 0)[a])
  {
    var positions := Applied(layers, context, 0);
    assert positions[a] in positions;
    forall j: nat | j < |layers| && j != positions[a] && Matches(layers[j], context) && key in layers[j].values
      ensures Before(layers, j, positions[a])
    {
      assert j in positions;
      var b :| 0 <= b < |positions| && positions[b] == j;
    }
  }

  lemma WinnerIsUnique<V>(layers: seq<Layer<V>>, context: Context, key: string, v: nat, w: nat)
    requires Wins(layers, context, key, v) && Wins(layers, context, key, w)
    ensures v == w
  {
  }

  /** Resolution by sorting and overlaying is the choice of the greatest layer, key by key. */
  lemma ResolveMeansWinner<V>(layers: seq<Layer<V>>, context: Context, key: string)
    ensures var values := Resolve(layers, context).values;
            && (key in values <==> exists w: nat :: Wins(layers, context, key, w))
            && (forall w: nat :: Wins(layers, context, key, w) ==> key in values && values[key] == layers[w].values[key])
  {
    var positions, values := Applied(layers, context, 0), Resolve(layers, context).values;
    OverlayReads(layers, positions, key);
    if key in values {
      var a: nat :| LastWith(layers, positions, key, a) && values[key] == layers[positions[a]].values[key];
      LastIsWinner(layers, context, key, a);
      forall w: nat | Wins(layers, context, key, w)
        ensures w == positions[a]
      {
        WinnerIsUnique(layers, context, key, w, positions[a]);
      }
    } else {
      forall w: nat
        ensures !Wins(layers, context, key, w)
      {
        assert w in positions ==> exists b :: 0 <= b < |positions| && positions[b] == w;
      }
    }
  }

  /** The applied ids list each matching layer once, by priority and then by input order. */
  lemma AppliedIsStableSort<V>(layers: seq<Layer<V>>, context: Context)
    ensures var positions := Applied(layers, context, 0);
            && |Resolve(layers, context).appliedLayerIds| == |positions|
            && (forall a :: 0 <= a < |positions| ==>
                  Resolve(layers, context).appliedLayerIds[a] == layers[positions[a]].id)
            && (forall p: nat :: p in positions <==> p < |layers| && Matches(layers[p], context))
            && (forall a, b :: 0 <= a < b < |positions| ==>
                  && positions[a] != positions[b]
                  && layers[positions[a]].priority <= layers[positions[b]].priority
                  && (layers[positions[a]].priority == layers[positions[b]].priority ==> positions[a] < positions[b]))
  {
    var positions := Applied(layers, context, 0);
    forall a, b | 0 <= a < b < |positions|
      ensures Before(layers, positions[a], positions[b])
    {
    }
  }

  // ---------------------------------------------------------------- the input order does not matter

  ghost predicate DistinctPriorities<V>(layers: seq<Layer<V>>) {
    forall i, j :: 0 <= i < j < |layers| ==> layers[i].priority != layers[j].priority
  }

  /** The layers in order of application. */
  function AppliedLayers<V>(layers: seq<Layer<V>>, context: Context): (r: seq<Layer<V>>) {
    var positions := Applied(layers, context, 0);
    seq(|positions|, a requires 0 <= a < |positions| => layers[positions[a]])
  }

  ghost predicate Ascending<V>(layers: seq<Layer<V>>) {
    forall i, j :: 0 <= i < j < |layers| ==> layers[i].priority < layers[j].priority
  }

  lemma AppliedLayersAscend<V>(layers: seq<Layer<V>>, context: Context)
    requires DistinctPriorities(layers)
    ensures Ascending(AppliedLayers(layers, context))
    ensures forall l :: l in AppliedLayers(layers, context) <==> l in layers && Matches(l, context)
  {
    var positions, applied := Applied(layers, context, 0), AppliedLayers(layers, context);
    forall i, j | 0 <= i < j < |applied|
      ensures applied[i].priority < applied[j].priority
    {
      assert Before(layers, positions[i], positions[j]);
    }
    forall l | l in layers && Matches(l, context)
      ensures l in applied
    {
      var p: nat :| p < |layers| && layers[p] == l;
      assert p in positions;
      var a :| 0 <= a < |positions| && positions[a] == p;
      assert applied[a] == l;
    }
    forall l | l in applied
      ensures l in layers && Matches(l, context)
    {
      var a :| 0 <= a < |applied| && applied[a] == l;
      assert positions[a] in positions;
    }
  }

  lemma {:induction false} AscendingUnique<V>(a: seq<Layer<V>>, b: seq<Layer<V>>)
    requires Ascending(a) && Ascending(b) && forall l :: l in a <==> l in b
    ensures a == b
  {
    assert a != [] ==> a[0] in b;
    assert b != [] ==> b[0] in a;
    if a != [] {
      var x, y := a[|a| - 1], b[|b| - 1];
      assert x in b && y in a;
      assert x == y;
      var a', b' := a[..|a| - 1], b[..|b| - 1];
      forall l
        ensures l in a' <==> l in b'
      {
        assert l in a <==> l in a' || l == x;
        assert l in b <==> l in b' || l == x;
        assert x !in a' && x !in b';
      }
      AscendingUnique(a', b');
      assert a == a' + [x] && b == b' + [x];
    }
  }

  function OverlayLayers<V>(layers: seq<Layer<V>>): map<string, V> {
    if layers == [] then map[] else OverlayLayers(layers[..|layers| - 1]) + layers[|layers| - 1].values
  }

  lemma {:induction false} OverlayByLayers<V>(layers: seq<Layer<V>>, positions: seq<nat>)
    requires forall a :: 0 <= a < |positions| ==> positions[a] < |layers|
    ensures Overlay(layers, positions)
         == OverlayLayers(seq(|positions|, a requires 0 <= a < |positions| => layers[positions[a]]))
  {
    if positions != [] {
      var n := |positions| - 1;
      var all := seq(|positions|, a requires 0 <= a < |positions| => layers[positions[a]]);
      OverlayByLayers(layers, positions[..n]);
      assert all[..n] == seq(n, a requires 0 <= a < n => layers[positions[..n][a]]);
    }
  }

  lemma TwoPlacesCountTwice<T>(s: seq<T>, i: nat, j: nat)
    requires i < j < |s| && s[i] == s[j]
    ensures multiset(s)[s[i]] >= 2
  {
    assert s == s[..j] + s[j..];
    assert s[i] in s[..j] && s[j] in s[j..];
  }

  lemma {:induction false} DistinctCountOnce<V>(layers: seq<Layer<V>>, l: Layer<V>)
    requires DistinctPriorities(layers)
    ensures multiset(layers)[l] <= 1
  {
    if layers != [] {
      var n := |layers| - 1;
      assert layers == layers[..n] + [layers[n]];
      DistinctCountOnce(layers[..n], l);
      assert layers[n] !in layers[..n];
    }
  }

  lemma PermutationKeepsDistinct<V>(layers: seq<Layer<V>>, reordered: seq<Layer<V>>)
    requires DistinctPriorities(layers) && multiset(layers) == multiset(reordered)
    ensures DistinctPriorities(reordered)
    ensures forall l :: l in layers <==> l in reordered
  {
    assert forall l :: l in layers <==> l in multiset(layers);
    assert forall l :: l in reordered <==> l in multiset(reordered);
    forall i, j | 0 <= i < j < |reordered|
      ensures reordered[i].priority != reordered[j].priority
    {
      DistinctCountOnce(layers, reordered[i]);
      if reordered[i] == reordered[j] {
        TwoPlacesCountTwice(reordered, i, j);
      }
      assert reordered[i] in layers && reordered[j] in layers;
    }
  }

  /** What is resolved depends only on the layers in order of application. */
  lemma ResolveByLayers<V>(layers: seq<Layer<V>>, context: Context)
    ensures var applied := AppliedLayers(layers, context);
            Resolve(layers, context)
              == Resolved(OverlayLayers(applied), seq(|applied|, a requires 0 <= a < |applied| => applied[a].id))
  {
    var applied := AppliedLayers(layers, context);
    OverlayByLayers(layers, Applied(layers, context, 0));
    assert Ids(layers, Applied(layers, context, 0)) == seq(|applied|, a requires 0 <= a < |applied| => applied[a].id);
  }

  /** With distinct priorities, any permutation of the input resolves to the same values and the same applied ids. */
  lemma ReorderingDoesNotMatter<V>(layers: seq<Layer<V>>, reordered: seq<Layer<V>>, context: Context)
    requires DistinctPriorities(layers) && multiset(layers) == multiset(reordered)
    ensures Resolve(layers, context) == Resolve(reordered, context)
  {
    PermutationKeepsDistinct(layers, reordered);
    AppliedLayersAscend(layers, context);
    AppliedLayersAscend(reordered, context);
    AscendingUnique(AppliedLayers(layers, context), AppliedLayers(reordered, context));
    ResolveByLayers(layers, context);
    ResolveByLayers(reordered, context);
  }
}
