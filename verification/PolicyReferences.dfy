// What a layer declares and what can be generated for it, read off the raw policy value: paths of
// keys, literal prefixes, parsed scales.

module PolicyReferences {
  import opened Options
  import opened PolicyMerge
  import opened PolicyCoverage
  import opened CoverageReport

  /** Following the keys from mapping to mapping arrives somewhere. */
  predicate Reaches(v: Json, path: seq<string>) {
    path == [] || (v.Obj? && path[0] in v.fields && Reaches(v.fields[path[0]], path[1..]))
  }

  function At(v: Json, path: seq<string>): Json
    requires Reaches(v, path)
  {
    if path == [] then v else At(v.fields[path[0]], path[1..])
  }

  lemma ReachesOne(v: Json, a: string)
    ensures Reaches(v, [a]) <==> v.Obj? && a in v.fields
    ensures Reaches(v, [a]) ==> At(v, [a]) == v.fields[a]
  {
    assert [a][1..] == [];
  }

  lemma ReachesTwo(v: Json, a: string, b: string)
    ensures Reaches(v, [a, b]) <==> v.Obj? && a in v.fields && v.fields[a].Obj? && b in v.fields[a].fields
    ensures Reaches(v, [a, b]) ==> At(v, [a, b]) == v.fields[a].fields[b]
  {
    assert [a, b][1..] == [b];
    if v.Obj? && a in v.fields { ReachesOne(v.fields[a], b); }
  }

  lemma ReachesThree(v: Json, a: string, b: string, c: string)
    ensures Reaches(v, [a, b, c])
       <==> && v.Obj? && a in v.fields && v.fields[a].Obj? && b in v.fields[a].fields
            && v.fields[a].fields[b].Obj? && c in v.fields[a].fields[b].fields
    ensures Reaches(v, [a, b, c]) ==> At(v, [a, b, c]) == v.fields[a].fields[b].fields[c]
  {
    assert [a, b, c][1..] == [b, c];
    if v.Obj? && a in v.fields { ReachesTwo(v.fields[a], b, c); }
  }

  /** Where each kind of item is declared, and how it is referred to: by its path behind a fixed
      word, joined by dots. */
  lemma DeclaredWhere(delta: Json, item: Item)
    requires delta.Obj?
    ensures item.Unit? ==>
      && Ref(item) == "semantics.unit_ontology.units." + item.id
      && (Declares(delta, item) <==> Reaches(delta, ["unit_ontology", "units", item.id]))
    ensures item.Metric? ==>
      && Ref(item) == "semantics.metric_ontology.metrics." + item.id
      && (Declares(delta, item) <==> Reaches(delta, ["metric_ontology", "metrics", item.id]))
    ensures item.Value? ==>
      && Ref(item) == "semantics.dimensions." + item.dimension + "." + item.id
      && (Declares(delta, item) <==> Reaches(delta, ["dimensions", item.dimension, item.id]))
    ensures item.ScalarDimension? ==>
      && Ref(item) == "semantics.dimensions." + item.dimension
      && (Declares(delta, item)
          <==> Reaches(delta, ["dimensions", item.dimension]) && !At(delta, ["dimensions", item.dimension]).Obj?)
    ensures item.Dependency? ==>
      && Ref(item) == "semantics.calculation_dependencies." + item.id
      && (Declares(delta, item) <==> Reaches(delta, ["calculation_dependencies", item.id]))
    ensures item.Other? ==>
      && Ref(item) == "semantics." + item.key
      && (Declares(delta, item)
          <==> && Reaches(delta, [item.key]) && item.key != "unit_ontology" && item.key != "metric_ontology"
               && item.key != "dimensions" && item.key != "calculation_dependencies")
  {
    match item
    case Unit(id) => ReachesThree(delta, "unit_ontology", "units", id);
    case Metric(id) => ReachesThree(delta, "metric_ontology", "metrics", id);
    case Value(d, id) => ReachesThree(delta, "dimensions", d, id);
    case ScalarDimension(d) => ReachesTwo(delta, "dimensions", d);
    case Dependency(id) => ReachesTwo(delta, "calculation_dependencies", id);
    case Other(k) => ReachesOne(delta, k);
  }

  /** For exactly these items a case is generated: an enabled family declares it, a unit has a
      scale and either an alias or the scale one, a dependency has an input. */
  lemma GeneratedWhen(l: Layer, decimal: Json -> Option<real>, item: Item)
    requires l.delta.Obj?
    ensures item.Unit? ==>
      var path := ["unit_ontology", "units", item.id];
      (Generated(l, decimal, item)
       <==> && UnitOntology in l.families && Reaches(l.delta, path) && At(l.delta, path).Obj?
            && var u := At(l.delta, path);
               var scale := decimal(if Reaches(u, ["scale"]) then At(u, ["scale"]) else Num("1"));
               scale.Some? && (SomeText(u, ["aliases"]) || scale == Some(1.0)))
    ensures item.Metric? ==>
      (Generated(l, decimal, item)
       <==> MetricOntology in l.families && Reaches(l.delta, ["metric_ontology", "metrics", item.id]))
    ensures item.Value? ==>
      (Generated(l, decimal, item)
       <==> DimensionOntology in l.families && Reaches(l.delta, ["dimensions", item.dimension, item.id]))
    ensures item.Dependency? ==>
      (Generated(l, decimal, item)
       <==> CalculationDependencies in l.families && SomeText(l.delta, ["calculation_dependencies", item.id]))
    ensures item.ScalarDimension? || item.Other? ==> !Generated(l, decimal, item)
  {
    hide StringList;
    DeclaredWhere(l.delta, item);
    match item
    case Unit(id) =>
      ReachesThree(l.delta, "unit_ontology", "units", id);
      if Declares(l.delta, item) {
        var u := Units(l.delta).fields[id];
        ReachesOne(u, "scale");
        ReachesOne(u, "aliases");
        TextIsListed(u, ["aliases"], Get(u, "aliases"));
      }
    case Dependency(id) =>
      ReachesTwo(l.delta, "calculation_dependencies", id);
      if Declares(l.delta, item) {
        TextIsListed(l.delta, ["calculation_dependencies", id], Dependencies(l.delta).fields[id]);
      }
    case _ =>
  }

  /** The path leads to a list with a non-empty string, a number or a Boolean. */
  ghost predicate SomeText(v: Json, path: seq<string>) {
    Reaches(v, path) && At(v, path).List? && exists x :: x in At(v, path).items && IsText(x)
  }

  predicate IsText(x: Json) {
    (x.Str? && x.s != "") || (x.Num? && x.text != "") || x.Bool?
  }

  lemma TextIsListed(v: Json, path: seq<string>, x: Json)
    requires if Reaches(v, path) then At(v, path) == x else x == Null
    ensures StringList(x) != [] <==> SomeText(v, path)
  {
    StringListNonEmpty(x);
    if x.List? {
      forall y ensures IsText(y) <==> HasText(y) {}
      if y :| y in x.items && IsText(y) { var i :| 0 <= i < |x.items| && x.items[i] == y; }
    }
  }

  /** What the items give as a list of texts: those of the parts one after the other, a text for
      each scalar that has one. */
  lemma {:induction false} StringItemsJoin(a: seq<Json>, b: seq<Json>)
    ensures StringItems(a + b) == StringItems(a) + StringItems(b)
    decreases |b|
  {
    if b == [] {
      assert a + b == a;
    } else {
      var front := b[..|b| - 1];
      assert (a + b)[..|a + b| - 1] == a + front;
      StringItemsJoin(a, front);
    }
  }

  lemma StringItemsOfOne(x: Json)
    ensures StringItems([x])
         == match x
            case Str(s) => (if s == "" then [] else [s])
            case Num(t) => (if t == "" then [] else [t])
            case Bool(true) => ["True"]
            case Bool(false) => ["False"]
            case _ => []
  {
    assert [x][..0] == [];
  }
}
