// The loops that generate the cases and enumerate the references of a policy layer.

module CaseGenerators {
  import opened Options
  import opened PolicyMerge
  import opened PolicyCoverage
  import opened SortedStrings

  /** One case for each of `n` terms. */
  method Append(front: seq<Case>, c: Case, n: nat) returns (cases: seq<Case>)
    ensures cases == front + Repeat(c, n)
  {
    cases := front;
    for j := 0 to n
      invariant cases == front + Repeat(c, j)
    {
      assert Repeat(c, j + 1) == Repeat(c, j) + [c];
      cases := cases + [c];
    }
  }

  lemma NextKey(v: Json, i: nat)
    requires v.Obj? && Valid(v) && i < |v.order|
    ensures v.order[i] in v.fields && v.order[..i + 1][..i] == v.order[..i] && v.order[..i + 1][i] == v.order[i]
  {
    assert v.order[i] in v.order;
  }

  method GenerateUnitCases(delta: Json, decimal: Json -> Option<real>, conflicting: set<string>)
    returns (cases: seq<Case>)
    requires delta.Obj? && Valid(delta)
    ensures cases == FamilyCases(UnitOntology, delta, decimal, conflicting)
  {
    hide CasesOfUnit, Valid;
    var units := Units(delta);
    PartsValid(delta);
    cases := [];
    var i := 0;
    while i < |units.order|
      invariant i <= |units.order|
      invariant cases == Gather(units.order[..i], UnitCases(units, decimal, conflicting))
    {
      NextKey(units, i);
      var id := units.order[i];
      var one := GenerateCasesOfUnit(units.fields[id], Unit(id), decimal, id in conflicting);
      cases := cases + one;
      i := i + 1;
    }
    assert units.order[..i] == units.order;
  }

  /** The body of the loop over the units: a case per term, and one for an incompatible unit. */
  method GenerateCasesOfUnit(definition: Json, item: Item, decimal: Json -> Option<real>, conflict: bool)
    returns (cases: seq<Case>)
    ensures cases == CasesOfUnit(definition, item, decimal, conflict)
  {
    hide StringList, Repeat;
    if !definition.Obj? { return []; }
    var scale := Scale(definition, decimal);
    if scale.None? { return []; }
    var aliases := StringList(Get(definition, "aliases"));
    var terms := if aliases != [] then |aliases| else if scale == Some(1.0) then 1 else 0;
    cases := Append([], Case(item, "generated-unit-equivalence", true), terms);
    cases := AppendWhen(cases, Case(item, "generated-unit-conflict", false), terms > 0 && conflict);
  }

  method GenerateMetricCases(delta: Json) returns (cases: seq<Case>)
    requires delta.Obj? && Valid(delta)
    ensures forall decimal, conflicting :: cases == FamilyCases(MetricOntology, delta, decimal, conflicting)
  {
    hide CasesOfMetric, Valid;
    var metrics := Metrics(delta);
    PartsValid(delta);
    cases := [];
    var i := 0;
    while i < |metrics.order|
      invariant i <= |metrics.order|
      invariant cases == Gather(metrics.order[..i], MetricCases(metrics))
    {
      NextKey(metrics, i);
      var id := metrics.order[i];
      var one := GenerateCasesOfMetric(Mapping(metrics.fields[id]), Metric(id), |metrics.order| > 1);
      cases := cases + one;
      i := i + 1;
    }
    assert metrics.order[..i] == metrics.order;
  }

  /** The body of the loop over the metrics: one case per alias, per adapter field, per value
      alias, and one for each transform, date role and sibling. */
  method GenerateCasesOfMetric(definition: Json, item: Item, siblings: bool) returns (cases: seq<Case>)
    ensures cases == CasesOfMetric(definition, item, siblings)
  {
    hide StringList, Repeat, When, ValueCases, MetricAliases;
    cases := Append([], Case(item, "generated-metric-alias", true), MetricAliases(definition));
    cases := Append(cases, Case(item, "generated-metric-field", true), |StringList(Get(definition, "fields"))|);
    var more := GenerateValueCases(Mapping(Get(definition, "value_aliases")), item);
    cases := cases + more;
    cases := AppendWhen(cases, Case(item, "generated-metric-value-transform", true),
        Get(definition, "value_transform") == Str("absolute"));
    cases := AppendWhen(cases, Case(item, "generated-metric-date-role", true),
        Get(definition, "date_role") == Str("publication"));
    cases := AppendWhen(cases, Case(item, "generated-metric-disambiguation", true), siblings);
  }

  method AppendWhen(front: seq<Case>, c: Case, condition: bool) returns (cases: seq<Case>)
    ensures cases == front + When(condition, c)
  {
    cases := front;
    if condition { cases := cases + [c]; }
  }

  method GenerateValueCases(values: Json, item: Item) returns (cases: seq<Case>)
    requires values.Obj?
    ensures cases == ValueCases(values.order, values, item)
  {
    hide StringList;
    cases := [];
    var i := 0;
    while i < |values.order|
      invariant i <= |values.order|
      invariant cases == ValueCases(values.order[..i], values, item)
    {
      var aliases := StringList(Get(values, values.order[i]));
      assert values.order[..i + 1][..i] == values.order[..i];
      cases := Append(cases, Case(item, "generated-metric-value-alias", true), |aliases|);
      i := i + 1;
    }
    assert values.order[..i] == values.order;
  }

  method GenerateDimensionCases(delta: Json) returns (cases: seq<Case>)
    requires delta.Obj? && Valid(delta)
    ensures forall decimal, conflicting :: cases == FamilyCases(DimensionOntology, delta, decimal, conflicting)
  {
    hide DimensionValueCases, Valid;
    var dimensions := Dimensions(delta);
    PartsValid(delta);
    cases := [];
    var i := 0;
    while i < |dimensions.order|
      invariant i <= |dimensions.order|
      invariant cases == Gather(dimensions.order[..i], DimensionCases(dimensions))
    {
      var d := dimensions.order[i];
      NextKey(dimensions, i);
      i := i + 1;
      var values := dimensions.fields[d];
      if !values.Obj? { continue; }
      var one := GenerateCasesOfDimension(d, values);
      cases := cases + one;
    }
    assert dimensions.order[..i] == dimensions.order;
  }

  method GenerateCasesOfDimension(d: string, values: Json) returns (cases: seq<Case>)
    requires values.Obj?
    ensures cases == Gather(values.order, DimensionValueCases(d, values))
  {
    hide StringList;
    cases := [];
    var i := 0;
    while i < |values.order|
      invariant i <= |values.order|
      invariant cases == Gather(values.order[..i], DimensionValueCases(d, values))
    {
      var id := values.order[i];
      assert values.order[..i + 1][..i] == values.order[..i];
      var aliases := StringList(Get(values, id));
      cases := Append(cases, Case(Value(d, id), "generated-dimension-alias", true),
          if aliases == [] then 1 else |aliases|);
      if |values.order| > 1 {
        cases := cases + [Case(Value(d, id), "generated-dimension-conflict", false)];
      }
      i := i + 1;
    }
    assert values.order[..i] == values.order;
  }

  method GenerateDependencyCases(delta: Json) returns (cases: seq<Case>)
    requires delta.Obj? && Valid(delta)
    ensures forall decimal, conflicting :: cases == FamilyCases(CalculationDependencies, delta, decimal, conflicting)
  {
    hide StringList, Valid;
    var dependencies := Dependencies(delta);
    PartsValid(delta);
    cases := [];
    var i := 0;
    while i < |dependencies.order|
      invariant i <= |dependencies.order|
      invariant cases == Gather(dependencies.order[..i], DependencyCases(dependencies))
    {
      var id := dependencies.order[i];
      NextKey(dependencies, i);
      var inputs := StringList(dependencies.fields[id]);
      cases := Append(cases, Case(Dependency(id), "generated-calculation-dependency", true), |inputs|);
      i := i + 1;
    }
    assert dependencies.order[..i] == dependencies.order;
  }

  method GeneratePolicyCases(
      families: seq<Family>, delta: Json, decimal: Json -> Option<real>, conflicting: set<string>)
    returns (cases: seq<Case>)
    requires delta.Obj? && Valid(delta)
    ensures cases == PolicyCases(families, delta, decimal, conflicting)
  {
    hide FamilyCases, Valid;
    cases := [];
    for i := 0 to |families|
      invariant cases == PolicyCases(families[..i], delta, decimal, conflicting)
    {
      assert families[..i + 1][..i] == families[..i] && families[..i + 1][i] == families[i];
      var more;
      match families[i] {
        case UnitOntology => more := GenerateUnitCases(delta, decimal, conflicting);
        case MetricOntology => more := GenerateMetricCases(delta);
        case DimensionOntology => more := GenerateDimensionCases(delta);
        case CalculationDependencies => more := GenerateDependencyCases(delta);
      }
      assert more == FamilyCases(families[i], delta, decimal, conflicting);
      cases := cases + more;
    }
    assert families[..|families|] == families;
  }

  // ---------------------------------------------------------------- the independent enumeration

  /** Everything declared in the layer, as a set. */
  function Items(delta: Json): set<Item>
    requires delta.Obj?
  {
    (set id | id in Units(delta).fields :: Unit(id))
    + (set id | id in Metrics(delta).fields :: Metric(id))
    + (set d, id | d in Dimensions(delta).fields && Dimensions(delta).fields[d].Obj?
         && id in Dimensions(delta).fields[d].fields :: Value(d, id))
    + (set d | d in Dimensions(delta).fields && !Dimensions(delta).fields[d].Obj? :: ScalarDimension(d))
    + (set id | id in Dependencies(delta).fields :: Dependency(id))
    + (set k | k in delta.fields && k !in KNOWN :: Other(k))
  }

  lemma ItemsAreDeclared(delta: Json, item: Item)
    requires delta.Obj?
    ensures item in Items(delta) <==> Declares(delta, item)
  {
    hide Units, Metrics, Dimensions, Dependencies;
  }

  /** The references a layer has to cover. */
  function Targets(delta: Json): set<string>
    requires delta.Obj?
  {
    set item | item in Items(delta) :: Ref(item)
  }

  method AddItems(v: Json, make: string -> Item, items: set<Item>) returns (more: set<Item>)
    requires v.Obj? && Valid(v)
    ensures more == items + set k | k in v.fields :: make(k)
  {
    more := items;
    for i := 0 to |v.order|
      invariant more == items + set j | 0 <= j < i :: make(v.order[j])
    {
      more := more + {make(v.order[i])};
    }
    forall k | k in v.fields ensures exists j :: 0 <= j < |v.order| && v.order[j] == k { assert k in v.order; }
    forall j | 0 <= j < |v.order| ensures v.order[j] in v.fields { assert v.order[j] in v.order; }
  }

  /** The references, each once, in ascending order. */
  method SemanticPolicyRefs(delta: Json) returns (refs: seq<string>)
    requires delta.Obj? && Valid(delta)
    ensures Ascending(refs) && forall r :: r in refs <==> r in Targets(delta)
  {
    hide Valid, Ref, Units, Metrics, Dimensions, Dependencies;
    PartsValid(delta);
    var units := AddItems(Units(delta), x => Unit(x), {});
    assert units == set id | id in Units(delta).fields :: Unit(id);
    var metrics := AddItems(Metrics(delta), x => Metric(x), {});
    assert metrics == set id | id in Metrics(delta).fields :: Metric(id);
    var dimensions := AddDimensions(Dimensions(delta));
    var dependencies := AddItems(Dependencies(delta), x => Dependency(x), {});
    assert dependencies == set id | id in Dependencies(delta).fields :: Dependency(id);
    var others := OtherKeys(delta);
    ItemsAre(delta, units, metrics, dimensions, dependencies, others);
    var items := units + metrics + dimensions + dependencies + others;
    var all := set item | item in items :: Ref(item);
    refs := SortedSet(all);
  }

  method SortedSet(all: set<string>) returns (sorted: seq<string>)
    ensures Ascending(sorted) && forall r :: r in sorted <==> r in all
  {
    var rest := all;
    sorted := [];
    while rest != {}
      invariant rest <= all && Ascending(sorted)
      invariant forall r :: r in sorted <==> r in all && r !in rest
      decreases |rest|
    {
      var r :| r in rest;
      InsertSorts(r, sorted);
      sorted, rest := Insert(r, sorted), rest - {r};
    }
  }

  lemma ItemsAre(
      delta: Json, units: set<Item>, metrics: set<Item>, dimensions: set<Item>, dependencies: set<Item>,
      others: set<Item>)
    requires delta.Obj?
    requires units == set id | id in Units(delta).fields :: Unit(id)
    requires metrics == set id | id in Metrics(delta).fields :: Metric(id)
    requires dimensions == (set d, id | d in Dimensions(delta).fields && Dimensions(delta).fields[d].Obj?
                              && id in Dimensions(delta).fields[d].fields :: Value(d, id))
                         + (set d | d in Dimensions(delta).fields
                              && !Dimensions(delta).fields[d].Obj? :: ScalarDimension(d))
    requires dependencies == set id | id in Dependencies(delta).fields :: Dependency(id)
    requires others == set k | k in delta.fields && k !in KNOWN :: Other(k)
    ensures units + metrics + dimensions + dependencies + others == Items(delta)
  {
    hide Units, Metrics, Dimensions, Dependencies;
  }

  method AddDimensions(dimensions: Json) returns (items: set<Item>)
    requires dimensions.Obj? && Valid(dimensions)
    ensures items == (set d, id | d in dimensions.fields && dimensions.fields[d].Obj?
                        && id in dimensions.fields[d].fields :: Value(d, id))
                   + (set d | d in dimensions.fields && !dimensions.fields[d].Obj? :: ScalarDimension(d))
  {
    items := {};
    for i := 0 to |dimensions.order|
      invariant forall item :: item in items
                  <==> OfDimension(dimensions, item) && item.dimension in dimensions.order[..i]
    {
      var d := dimensions.order[i];
      NextKey(dimensions, i);
      assert dimensions.order[..i + 1] == dimensions.order[..i] + [d];
      var values := dimensions.fields[d];
      if values.Obj? {
        items := AddItems(values, x => Value(d, x), items);
      } else {
        items := items + {ScalarDimension(d)};
      }
    }
    assert dimensions.order[..|dimensions.order|] == dimensions.order;
  }

  ghost predicate OfDimension(dimensions: Json, item: Item)
    requires dimensions.Obj?
    ensures OfDimension(dimensions, item) ==> item.Value? || item.ScalarDimension?
  {
    match item
    case Value(d, id) => d in dimensions.fields && dimensions.fields[d].Obj? && id in dimensions.fields[d].fields
    case ScalarDimension(d) => d in dimensions.fields && !dimensions.fields[d].Obj?
    case _ => false
  }

  method OtherKeys(delta: Json) returns (items: set<Item>)
    requires delta.Obj? && Valid(delta)
    ensures items == set k | k in delta.fields && k !in KNOWN :: Other(k)
  {
    items := {};
    for i := 0 to |delta.order|
      invariant forall item :: item in items <==> item.Other? && item.key in delta.order[..i] && item.key !in KNOWN
    {
      assert delta.order[..i + 1] == delta.order[..i] + [delta.order[i]];
      if delta.order[i] !in KNOWN { items := items + {Other(delta.order[i])}; }
    }
    assert delta.order[..|delta.order|] == delta.order;
  }
}
