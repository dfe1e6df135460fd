// Policy layers: what composing them in their order gives, at every key.

module PolicyLayers {
  import opened PolicyMerge

  /** The layers merged one after the other. */
  function Composed(layers: seq<Json>): Json {
    if layers == [] then EMPTY else Merged(Composed(layers[..|layers| - 1]), layers[|layers| - 1])
  }

  ghost predicate Layers(layers: seq<Json>) {
    forall i :: 0 <= i < |layers| ==> layers[i].Obj? && Valid(layers[i])
  }

  ghost predicate AllCompatible(layers: seq<Json>) {
    forall i, j :: 0 <= i < |layers| && 0 <= j < |layers| ==> Compatible(layers[i], layers[j])
  }

  lemma MergeEmpty(x: Json)
    requires x.Obj? && Valid(x)
    ensures Merged(x, EMPTY) == x && Merged(EMPTY, x) == x
  {
    hide Merged, Valid;
    EmptyAbove(x);
    EmptyBelow(x);
  }

  lemma EmptyAbove(x: Json)
    requires x.Obj?
    ensures Merged(x, EMPTY) == x
  {
    NothingToAdd(x.order, [], Key);
    hide Extended;
    assert Merged(x, EMPTY).fields == x.fields;
  }

  lemma EmptyBelow(x: Json)
    requires x.Obj? && Valid(x)
    ensures Merged(EMPTY, x) == x
  {
    OrderIsNew(x.order);
    hide Extended, Valid;
    assert Merged(EMPTY, x).fields == x.fields;
  }

  lemma OrderIsNew(order: seq<string>)
    requires Distinct(order)
    ensures Extended([], order, Key) == order
  {
    UnseenKeepsAll(order, {}, Key);
    assert Marks<string, string>([], Key) == {};
  }

  lemma ComposedSteps(layers: seq<Json>, z: Json)
    requires Layers(layers + [z])
    ensures Composed([]) == Obj([], map[])
    ensures Composed([z]) == z
    ensures Composed(layers + [z]) == Merged(Composed(layers), z)
  {
    assert z == (layers + [z])[|layers|];
    assert (layers + [z])[..|layers|] == layers && [z][..0] == [];
    MergeEmpty(z);
    hide Merged, Valid;
  }

  lemma {:induction false} ComposedValid(layers: seq<Json>)
    requires Layers(layers)
    ensures Composed(layers).Obj? && Valid(Composed(layers))
  {
    if layers != [] {
      ComposedValid(layers[..|layers| - 1]);
      MergedValid(Composed(layers[..|layers| - 1]), layers[|layers| - 1]);
    }
  }

  // ---------------------------------------------------------------- what a merge reads

  /** What any merge is, with neither marks nor recursion through a helper: dictionaries by key,
      lists item by item, flags by either, everything else replaced. */
  lemma MergedReads(base: Json, addition: Json)
    ensures !SameKind(base, addition) ==> Merged(base, addition) == addition
    ensures base.Bool? && addition.Bool? ==> Merged(base, addition) == Bool(base.b || addition.b)
    ensures base.Obj? && addition.Obj? ==>
      var r := Merged(base, addition);
      && r.Obj? && r.order == base.order + Fresh(addition.order, base.order)
      && forall k :: (k in r.fields <==> k in base.fields || k in addition.fields)
           && (k in r.fields ==>
                r.fields[k] == if k !in addition.fields then base.fields[k]
                               else if k !in base.fields then addition.fields[k]
                               else Merged(base.fields[k], addition.fields[k]))
    ensures base.List? && addition.List? ==> Merged(base, addition).List?
  {
    if base.Obj? && addition.Obj? {
      FreshIsUnseen(addition.order, base.order);
    }
  }

  /** The keys of `s` that are not in `known`, in their order, each once. */
  function Fresh(s: seq<string>, known: seq<string>): seq<string> {
    if s == [] then []
    else if s[0] in known then Fresh(s[1..], known)
    else [s[0]] + Fresh(s[1..], known + [s[0]])
  }

  lemma {:induction false} FreshIsUnseen(s: seq<string>, known: seq<string>)
    ensures Fresh(s, known) == Unseen(s, Marks(known, Key), Key)
  {
    if s != [] {
      MarksOfKeys(known);
      MarksSplit(known, [s[0]], Key);
      MarkOfOne(s[0], Key);
      FreshIsUnseen(s[1..], known);
      FreshIsUnseen(s[1..], known + [s[0]]);
    }
  }

  /** One more item of an added list is appended unless an equal one, up to key order, is there. */
  lemma MergedItems(base: seq<Json>, addition: seq<Json>, x: Json)
    ensures Merged(List(base), List([])) == List(base)
    ensures var r := Merged(List(base), List(addition)).items;
            Merged(List(base), List(addition + [x]))
            == List(if exists i :: 0 <= i < |r| && SameValue(r[i], x) then r else r + [x])
  {
    NothingToAdd(base, [], StableJson);
    ExtendedByOne(base, addition, x, StableJson);
    var r := Merged(List(base), List(addition)).items;
    forall i | 0 <= i < |r| ensures StableJson(r[i]) == StableJson(x) <==> SameValue(r[i], x) {
      SameMarkerIffSameValue(r[i], x);
    }
    hide Extended, SameValue;
  }

  // ---------------------------------------------------------------- what a composition reads

  ghost predicate HasKey(v: Json, k: string) { v.Obj? && k in v.fields }

  ghost predicate SomeHas(layers: seq<Json>, k: string) {
    exists i :: 0 <= i < |layers| && HasKey(layers[i], k)
  }

  /** What the layers give at a key, in their order. */
  function Given(layers: seq<Json>, k: string): seq<Json> {
    if layers == [] then []
    else
      var z := layers[|layers| - 1];
      Given(layers[..|layers| - 1], k) + if z.Obj? && k in z.fields then [z.fields[k]] else []
  }

  /** At least one value, each laid over those before it. */
  function Folded(values: seq<Json>): Json
    requires values != []
  {
    if |values| == 1 then values[0] else Merged(Folded(values[..|values| - 1]), values[|values| - 1])
  }

  /** A composition has the keys its layers have, and at each key what their values give. */
  lemma {:induction false} ComposedReads(layers: seq<Json>, k: string)
    requires Layers(layers)
    ensures Composed(layers).Obj?
    ensures k in Composed(layers).fields <==> SomeHas(layers, k)
    ensures k in Composed(layers).fields <==> Given(layers, k) != []
    ensures k in Composed(layers).fields ==> Composed(layers).fields[k] == Folded(Given(layers, k))
  {
    if layers != [] {
      var front, z := layers[..|layers| - 1], layers[|layers| - 1];
      ComposedReads(front, k);
      SomeHasStep(layers, k);
      MergedAt(Composed(front), z, k);
      hide Merged, Valid, SomeHas, HasKey;
      var g := Given(front, k);
      if k in z.fields {
        assert (g + [z.fields[k]])[..|g|] == g;
      } else {
        assert g + [] == g;
      }
    }
  }

  lemma SomeHasStep(layers: seq<Json>, k: string)
    requires layers != []
    ensures SomeHas(layers, k) <==> SomeHas(layers[..|layers| - 1], k) || HasKey(layers[|layers| - 1], k)
  {
    var n := |layers| - 1;
    assert forall i :: 0 <= i < n ==> layers[..n][i] == layers[i];
  }

  lemma MergedAt(base: Json, addition: Json, k: string)
    requires base.Obj? && addition.Obj?
    ensures var r := Merged(base, addition);
            r.Obj? && (k in r.fields <==> k in base.fields || k in addition.fields)
            && (k in r.fields ==>
                 r.fields[k] == if k !in addition.fields then base.fields[k]
                                else if k !in base.fields then addition.fields[k]
                                else Merged(base.fields[k], addition.fields[k]))
  {
    hide Extended;
  }

  /** A value that no earlier layer shares in kind is what the composition has at its key. */
  lemma {:induction false} LastOfItsKind(layers: seq<Json>, k: string, i: nat)
    requires Layers(layers)
    requires i < |layers| && k in layers[i].fields && forall j :: i < j < |layers| ==> k !in layers[j].fields
    requires forall j :: 0 <= j < i && k in layers[j].fields ==> !SameKind(layers[j].fields[k], layers[i].fields[k])
    ensures k in Composed(layers).fields && Composed(layers).fields[k] == layers[i].fields[k]
  {
    ComposedReads(layers, k);
    GivenUpTo(layers, k, i);
    assert HasKey(layers[i], k);
    hide Composed, Valid, Merged;
    var front, v := Given(layers[..i], k), layers[i].fields[k];
    if front != [] {
      assert (front + [v])[..|front|] == front;
      GivenBy(layers[..i], k);
      FoldedKind(front, v);
    }
  }

  lemma {:induction false} GivenUpTo(layers: seq<Json>, k: string, i: nat)
    requires Layers(layers)
    requires i < |layers| && k in layers[i].fields && forall j :: i < j < |layers| ==> k !in layers[j].fields
    ensures Given(layers, k) == Given(layers[..i], k) + [layers[i].fields[k]]
  {
    hide Valid;
    var n := |layers| - 1;
    if i < n {
      GivenUpTo(layers[..n], k, i);
      assert layers[..n][..i] == layers[..i];
    }
  }

  lemma {:induction false} GivenBy(layers: seq<Json>, k: string)
    ensures forall v :: v in Given(layers, k)
              ==> exists i :: 0 <= i < |layers| && layers[i].Obj? && k in layers[i].fields && layers[i].fields[k] == v
  {
    if layers != [] {
      var n := |layers| - 1;
      GivenBy(layers[..n], k);
      forall v | v in Given(layers, k)
        ensures exists i :: 0 <= i < |layers| && layers[i].Obj? && k in layers[i].fields && layers[i].fields[k] == v {
        if v in Given(layers[..n], k) {
          var i :| 0 <= i < n && layers[..n][i].Obj? && k in layers[..n][i].fields && layers[..n][i].fields[k] == v;
          assert layers[i] == layers[..n][i];
        } else {
          assert layers[n].fields[k] == v;
        }
      }
    }
  }

  /** What is laid over is of the kind of one of the values. */
  lemma {:induction false} FoldedKind(values: seq<Json>, v: Json)
    requires values != [] && forall u :: u in values ==> !SameKind(u, v)
    ensures !SameKind(Folded(values), v)
  {
    if |values| > 1 {
      var front, z := values[..|values| - 1], values[|values| - 1];
      assert z in values && forall u :: u in front ==> u in values;
      FoldedKind(front, v);
      MergedReads(Folded(front), z);
      hide Merged, Folded;
    }
  }

  // ---------------------------------------------------------------- regrouping

  lemma {:induction false} ComposedCompatible(layers: seq<Json>, x: Json)
    requires AllCompatible(layers + [x]) && Layers(layers + [x])
    ensures Compatible(Composed(layers), x) && Compatible(x, Composed(layers))
  {
    if layers != [] {
      var front, last := layers[..|layers| - 1], layers[|layers| - 1];
      assert layers + [x] == front + [last, x];
      assert (layers + [x])[|front|] == last && (layers + [x])[|layers|] == x;
      assert forall i :: 0 <= i < |front| ==> (front + [last])[i] == (layers + [x])[i] == (front + [x])[i];
      ComposedCompatible(front, last);
      ComposedCompatible(front, x);
      CompatibleWithMerged(x, Composed(front), last);
    } else {
      assert (layers + [x])[0] == x;
    }
  }

  /** Compatible layers may be composed in groups: composing the upper layers first and laying
      the result over the lower ones gives the same value. */
  lemma {:induction false} LayersRegroup(lower: seq<Json>, upper: seq<Json>)
    requires Layers(lower + upper) && AllCompatible(lower + upper)
    ensures Composed(lower + upper) == Merged(Composed(lower), Composed(upper))
    decreases |upper|
  {
    assert forall i :: 0 <= i < |lower| ==> lower[i] == (lower + upper)[i];
    ComposedValid(lower);
    if upper == [] {
      assert lower + upper == lower;
      MergeEmpty(Composed(lower));
    } else {
      var front, z := upper[..|upper| - 1], upper[|upper| - 1];
      assert lower + upper == (lower + front) + [z];
      assert forall i :: 0 <= i < |lower + front| ==> (lower + front)[i] == (lower + upper)[i];
      LayersRegroup(lower, front);
      GroupsCompatible(lower, front);
      CompatibleIsHarmonious(Composed(lower), Composed(front), z);
      AssociativeIffHarmonious(Composed(lower), Composed(front), z);
      assert (lower + upper)[..|lower + upper| - 1] == lower + front;
    }
  }

  lemma {:induction false} GroupsCompatible(lower: seq<Json>, upper: seq<Json>)
    requires Layers(lower + upper) && AllCompatible(lower + upper)
    ensures Compatible(Composed(lower), Composed(upper))
    decreases |upper|
  {
    hide Compatible, AllCompatible, Layers, Valid, Merged;
    var all := lower + upper;
    SomeLayers(lower, all);
    ComposedValid(lower);
    if upper == [] {
      EmptyCompatible(Composed(lower));
    } else {
      var front, z := upper[..|upper| - 1], upper[|upper| - 1];
      SomeLayers(lower + front, all);
      GroupsCompatible(lower, front);
      SomeLayers(lower + [z], all);
      ComposedCompatible(lower, z);
      assert front + [z] == upper;
      SomeLayers(upper, all);
      ComposedCompatible(front, z);
      CompatibleWithMerged(Composed(lower), Composed(front), z);
    }
  }

  lemma EmptyCompatible(x: Json)
    requires x.Obj?
    ensures Compatible(x, Composed([]))
  {
  }

  /** What holds of all layers holds of some of them. */
  lemma SomeLayers(some: seq<Json>, all: seq<Json>)
    requires Layers(all) && AllCompatible(all) && forall x :: x in some ==> x in all
    ensures Layers(some) && AllCompatible(some)
  {
    hide Compatible, Valid;
    forall i, j | 0 <= i < |some| && 0 <= j < |some|
      ensures some[i].Obj? && Valid(some[i]) && Compatible(some[i], some[j]) {
      assert some[i] in all && some[j] in all;
      var k, l :| 0 <= k < |all| && 0 <= l < |all| && all[k] == some[i] && all[l] == some[j];
    }
  }

  // ---------------------------------------------------------------- the evaluators' loops

  /** The cumulative snapshots are the compositions of the first layers. */
  method CumulativeSemantics(deltas: seq<Json>) returns (snapshots: seq<Json>)
    requires Layers(deltas)
    ensures |snapshots| == |deltas|
    ensures forall i :: 0 <= i < |deltas| ==> snapshots[i] == Composed(deltas[..i + 1])
    ensures deltas != [] ==> snapshots[0] == deltas[0]
    ensures forall i {:trigger snapshots[i]} :: 0 < i < |deltas| ==> snapshots[i] == Merged(snapshots[i - 1], deltas[i])
  {
    hide Merged, Valid, Composed, Layers;
    var effective := EMPTY;
    snapshots := [];
    ComposedNone();
    assert deltas[..0] == [];
    while |snapshots| < |deltas|
      invariant |snapshots| <= |deltas|
      invariant effective == Composed(deltas[..|snapshots|])
      invariant forall i :: 0 <= i < |snapshots| ==> snapshots[i] == Composed(deltas[..i + 1])
    {
      NextSnapshot(deltas, |snapshots|);
      effective := MergePolicyValue(effective, deltas[|snapshots|]);
      snapshots := snapshots + [effective];
    }
    if deltas != [] { NextSnapshot(deltas, 0); }
    forall i {:trigger snapshots[i]} | 0 < i < |deltas| ensures snapshots[i] == Merged(snapshots[i - 1], deltas[i]) {
      NextSnapshot(deltas, i);
      assert snapshots[i - 1] == Composed(deltas[..i - 1 + 1]);
    }
  }

  lemma NextSnapshot(deltas: seq<Json>, n: nat)
    requires Layers(deltas) && n < |deltas|
    ensures Valid(Composed(deltas[..n])) && Valid(deltas[n])
    ensures Composed(deltas[..n + 1]) == Merged(Composed(deltas[..n]), deltas[n])
    ensures n == 0 ==> Composed(deltas[..n + 1]) == deltas[0]
  {
    ComposedValid(deltas[..n]);
    assert deltas[..n + 1] == deltas[..n] + [deltas[n]];
    ComposedSteps(deltas[..n], deltas[n]);
    if n == 0 { assert deltas[..n + 1] == [deltas[0]]; }
  }

  function Delta(semantics: Json): Json {
    if semantics.Obj? then semantics else EMPTY
  }

  lemma LayerAdded(deltas: seq<Json>, addition: Json)
    requires Layers(deltas) && Valid(addition)
    ensures Layers(deltas + [Delta(addition)])
    ensures Composed(deltas).Obj? && Valid(Composed(deltas))
    ensures Composed(deltas + [Delta(addition)])
         == if addition.Obj? then Merged(Composed(deltas), addition) else Composed(deltas)
  {
    ComposedValid(deltas);
    ComposedSteps(deltas, Delta(addition));
    MergeEmpty(Composed(deltas));
  }

  lemma ComposedKeys(layers: seq<Json>)
    requires Layers(layers)
    ensures Composed(layers).Obj?
    ensures forall k :: k in Composed(layers).fields <==> SomeHas(layers, k)
    ensures |layers| == 1 ==> Composed(layers) == layers[0]
  {
    hide Merged, Composed, Valid, Given, Folded;
    ComposedReads(layers, "");
    forall k
      ensures k in Composed(layers).fields <==> SomeHas(layers, k) {
      ComposedReads(layers, k);
    }
    if |layers| == 1 {
      assert [] + [layers[0]] == layers == [layers[0]];
      ComposedSteps([], layers[0]);
    }
  }

  /** A layer whose semantics is not an object is skipped by the composition and recorded as an
      empty delta. */
  method LoadPolicySemantics(additions: seq<Json>) returns (semantics: Json, deltas: seq<Json>)
    requires forall i :: 0 <= i < |additions| ==> Valid(additions[i])
    ensures |deltas| == |additions| && Layers(deltas)
    ensures forall i :: 0 <= i < |deltas| ==> deltas[i] == Delta(additions[i])
    ensures semantics == Composed(deltas)
    ensures |deltas| == 1 ==> semantics == deltas[0]
    ensures semantics.Obj?
         && forall k :: k in semantics.fields <==> SomeHas(deltas, k)
  {
    hide Layers, Valid, Composed, Merged;
    ComposedNone();
    semantics, deltas := EMPTY, [];
    while |deltas| < |additions|
      invariant |deltas| <= |additions| && Layers(deltas)
      invariant forall i :: 0 <= i < |deltas| ==> deltas[i] == Delta(additions[i])
      invariant semantics == Composed(deltas)
    {
      var addition := additions[|deltas|];
      LayerAdded(deltas, addition);
      if addition.Obj? {
        semantics := MergePolicyValue(semantics, addition);
        deltas := deltas + [addition];
      } else {
        deltas := deltas + [EMPTY];
      }
    }
    ComposedKeys(deltas);
  }

  lemma ComposedNone()
    ensures Layers([]) && Composed([]) == EMPTY
  {
  }

  /** Both ways of composing the layers end in the same semantics. */
  method ComposeEvaluationPayload(additions: seq<Json>) returns (semantics: Json, snapshots: seq<Json>)
    requires forall i :: 0 <= i < |additions| ==> Valid(additions[i])
    ensures |snapshots| == |additions|
    ensures snapshots != [] ==> snapshots[|snapshots| - 1] == semantics
    ensures snapshots == [] ==> semantics == EMPTY
    ensures forall i {:trigger snapshots[i]} :: 0 <= i < |additions| ==>
              var delta := if additions[i].Obj? then additions[i] else Obj([], map[]);
              snapshots[i] == if i == 0 then delta else Merged(snapshots[i - 1], delta)
    ensures semantics.Obj?
         && forall k :: k in semantics.fields <==> SomeHas(additions, k)
  {
    hide Merged, Composed, Valid;
    ComposedNone();
    var deltas;
    semantics, deltas := LoadPolicySemantics(additions);
    snapshots := CumulativeSemantics(deltas);
    assert deltas[..|deltas|] == deltas;
    DeltaKeys(additions, deltas);
  }

  lemma DeltaKeys(additions: seq<Json>, deltas: seq<Json>)
    requires |deltas| == |additions| && forall i :: 0 <= i < |deltas| ==> deltas[i] == Delta(additions[i])
    ensures forall k :: SomeHas(deltas, k) <==> SomeHas(additions, k)
  {
    forall k
      ensures SomeHas(deltas, k) <==> SomeHas(additions, k) {
      forall i | 0 <= i < |deltas| ensures HasKey(deltas[i], k) <==> HasKey(additions[i], k) {}
    }
  }
}
