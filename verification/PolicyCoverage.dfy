// Generated resolver cases against the independently enumerated policy references.

module PolicyCoverage {
  import opened Options
  import opened PolicyMerge

  // ---------------------------------------------------------------- reading a policy value

  /** `v.get(k)`, and null for what is not a mapping. */
  function Get(v: Json, k: string): Json {
    if v.Obj? && k in v.fields then v.fields[k] else Null
  }

  function Mapping(v: Json): (r: Json)
    ensures r.Obj?
    ensures Valid(v) ==> Valid(r)
  {
    if v.Obj? then v else EMPTY
  }

  function OntologyEntries(semantics: Json, ontology: string, collection: string): (r: Json)
    ensures r.Obj?
    ensures Valid(semantics) ==> Valid(r)
  {
    var entries := Get(Get(semantics, ontology), collection);
    assert Valid(semantics) ==> Valid(Get(semantics, ontology)) && Valid(entries);
    Mapping(entries)
  }

  /** `str` of a string or a number; a Boolean is a number too. */
  function ItemText(v: Json): Option<string> {
    match v
    case Str(s) => Some(s)
    case Num(t) => Some(t)
    case Bool(b) => Some(if b then "True" else "False")
    case _ => None
  }

  function StringItems(items: seq<Json>): seq<string> {
    if items == [] then []
    else
      var front := StringItems(items[..|items| - 1]);
      match ItemText(items[|items| - 1])
      case Some(t) => if t == "" then front else front + [t]
      case None => front
  }

  function StringList(v: Json): seq<string> {
    if v.List? then StringItems(v.items) else []
  }

  /** An item that `StringList` keeps. */
  predicate HasText(v: Json) {
    ItemText(v).Some? && ItemText(v).value != ""
  }

  lemma {:induction false} StringListNonEmpty(v: Json)
    ensures StringList(v) != [] <==> v.List? && exists i :: 0 <= i < |v.items| && HasText(v.items[i])
    decreases if v.List? then |v.items| else 0
  {
    if v.List? && v.items != [] {
      var front, last := v.items[..|v.items| - 1], v.items[|v.items| - 1];
      StringListNonEmpty(List(front));
      if exists i :: 0 <= i < |v.items| && HasText(v.items[i]) {
        var i :| 0 <= i < |v.items| && HasText(v.items[i]);
        assert i < |front| ==> front[i] == v.items[i];
      }
      assert HasText(last) ==> HasText(v.items[|v.items| - 1]);
      assert forall i :: 0 <= i < |front| ==> front[i] == v.items[i];
    }
  }

  // ---------------------------------------------------------------- references

  /** What a policy layer declares. */
  datatype Item =
    | Unit(id: string)
    | Metric(id: string)
    | Value(dimension: string, id: string)
    | ScalarDimension(dimension: string)
    | Dependency(id: string)
    | Other(key: string)

  const UNITS: string := "semantics.unit_ontology.units."
  const METRICS: string := "semantics.metric_ontology.metrics."
  const DIMENSIONS: string := "semantics.dimensions."
  const DEPENDENCIES: string := "semantics.calculation_dependencies."
  const ROOT: string := "semantics."

  const KNOWN: set<string> := {"unit_ontology", "metric_ontology", "dimensions", "calculation_dependencies"}

  function Ref(item: Item): string {
    match item
    case Unit(id) => UNITS + id
    case Metric(id) => METRICS + id
    case Value(d, id) => DIMENSIONS + d + "." + id
    case ScalarDimension(d) => DIMENSIONS + d
    case Dependency(id) => DEPENDENCIES + id
    case Other(k) => ROOT + k
  }

  function Units(delta: Json): (r: Json) ensures r.Obj? { OntologyEntries(delta, "unit_ontology", "units") }
  function Metrics(delta: Json): (r: Json) ensures r.Obj? { OntologyEntries(delta, "metric_ontology", "metrics") }
  function Dimensions(delta: Json): (r: Json) ensures r.Obj? { Mapping(Get(delta, "dimensions")) }
  function Dependencies(delta: Json): (r: Json) ensures r.Obj? { Mapping(Get(delta, "calculation_dependencies")) }

  /** Everything declared in the layer. */
  predicate Declares(delta: Json, item: Item)
    requires delta.Obj?
  {
    match item
    case Unit(id) => id in Units(delta).fields
    case Metric(id) => id in Metrics(delta).fields
    case Value(d, id) => d in Dimensions(delta).fields && Dimensions(delta).fields[d].Obj?
      && id in Dimensions(delta).fields[d].fields
    case ScalarDimension(d) => d in Dimensions(delta).fields && !Dimensions(delta).fields[d].Obj?
    case Dependency(id) => id in Dependencies(delta).fields
    case Other(k) => k in delta.fields && k !in KNOWN
  }

  /** The scale of a unit, one when it has none; `decimal` stands for the decimal parser. */
  function Scale(definition: Json, decimal: Json -> Option<real>): Option<real>
    requires definition.Obj?
  {
    decimal(if "scale" in definition.fields then definition.fields["scale"] else Num("1"))
  }

  /** The items a case can be generated for. */
  predicate Coverable(delta: Json, item: Item, decimal: Json -> Option<real>)
    requires delta.Obj? && Declares(delta, item)
  {
    match item
    case Unit(id) =>
      var definition := Units(delta).fields[id];
      definition.Obj? && Scale(definition, decimal).Some?
      && (StringList(Get(definition, "aliases")) != [] || Scale(definition, decimal) == Some(1.0))
    case Metric(_) => true
    case Value(_, _) => true
    case ScalarDimension(_) => false
    case Dependency(id) => StringList(Dependencies(delta).fields[id]) != []
    case Other(_) => false
  }

  // ---------------------------------------------------------------- generated cases

  /** A generated case: the item whose reference it carries, its business group, whether it
      has gold evidence. */
  datatype Case = Case(item: Item, group: string, gold: bool)

  function Repeat(c: Case, n: nat): seq<Case> { seq(n, _ => c) }
  function When(condition: bool, c: Case): seq<Case> { if condition then [c] else [] }

  /** The cases of the items of a mapping, in its order. */
  function Gather(order: seq<string>, cases: string -> seq<Case>): seq<Case> {
    if order == [] then [] else Gather(order[..|order| - 1], cases) + cases(order[|order| - 1])
  }

  function UnitTerms(definition: Json, decimal: Json -> Option<real>): nat
    requires definition.Obj?
  {
    var aliases := StringList(Get(definition, "aliases"));
    if aliases != [] then |aliases| else if Scale(definition, decimal) == Some(1.0) then 1 else 0
  }

  function CasesOfUnit(definition: Json, item: Item, decimal: Json -> Option<real>, conflict: bool): seq<Case> {
    if !definition.Obj? || Scale(definition, decimal).None? then []
    else
      var terms := UnitTerms(definition, decimal);
      Repeat(Case(item, "generated-unit-equivalence", true), terms)
      + When(terms > 0 && conflict, Case(item, "generated-unit-conflict", false))
  }

  function UnitCases(units: Json, decimal: Json -> Option<real>, conflicting: set<string>): string -> seq<Case>
    requires units.Obj?
  {
    id => CasesOfUnit(Get(units, id), Unit(id), decimal, id in conflicting)
  }

  function ValueCases(order: seq<string>, values: Json, item: Item): seq<Case> {
    Gather(order, k => Repeat(Case(item, "generated-metric-value-alias", true), |StringList(Get(values, k))|))
  }

  function MetricAliases(definition: Json): nat {
    var aliases := StringList(Get(definition, "aliases"));
    if aliases == [] then 1 else |aliases|
  }

  function CasesOfMetric(definition: Json, item: Item, siblings: bool): seq<Case> {
    Repeat(Case(item, "generated-metric-alias", true), MetricAliases(definition))
    + Repeat(Case(item, "generated-metric-field", true), |StringList(Get(definition, "fields"))|)
    + ValueCases(Mapping(Get(definition, "value_aliases")).order, Mapping(Get(definition, "value_aliases")), item)
    + When(Get(definition, "value_transform") == Str("absolute"), Case(item, "generated-metric-value-transform", true))
    + When(Get(definition, "date_role") == Str("publication"), Case(item, "generated-metric-date-role", true))
    + When(siblings, Case(item, "generated-metric-disambiguation", true))
  }

  function MetricCases(metrics: Json): string -> seq<Case>
    requires metrics.Obj?
  {
    id => CasesOfMetric(Mapping(Get(metrics, id)), Metric(id), |metrics.order| > 1)
  }

  function DimensionValueCases(dimension: string, values: Json): string -> seq<Case>
    requires values.Obj?
  {
    id =>
      var aliases := StringList(Get(values, id));
      Repeat(Case(Value(dimension, id), "generated-dimension-alias", true), if aliases == [] then 1 else |aliases|)
      + When(|values.order| > 1, Case(Value(dimension, id), "generated-dimension-conflict", false))
  }

  function DimensionCases(dimensions: Json): string -> seq<Case>
    requires dimensions.Obj?
  {
    d =>
      var values := Get(dimensions, d);
      if values.Obj? then Gather(values.order, DimensionValueCases(d, values)) else []
  }

  function DependencyCases(dependencies: Json): string -> seq<Case>
    requires dependencies.Obj?
  {
    id => Repeat(Case(Dependency(id), "generated-calculation-dependency", true), |StringList(Get(dependencies, id))|)
  }

  datatype Family = UnitOntology | MetricOntology | DimensionOntology | CalculationDependencies

  function FamilyCases(f: Family, delta: Json, decimal: Json -> Option<real>, conflicting: set<string>): seq<Case> {
    match f
    case UnitOntology => Gather(Units(delta).order, UnitCases(Units(delta), decimal, conflicting))
    case MetricOntology => Gather(Metrics(delta).order, MetricCases(Metrics(delta)))
    case DimensionOntology => Gather(Dimensions(delta).order, DimensionCases(Dimensions(delta)))
    case CalculationDependencies => Gather(Dependencies(delta).order, DependencyCases(Dependencies(delta)))
  }

  function PolicyCases(
      families: seq<Family>, delta: Json, decimal: Json -> Option<real>, conflicting: set<string>): seq<Case> {
    if families == [] then []
    else
      PolicyCases(families[..|families| - 1], delta, decimal, conflicting)
      + FamilyCases(families[|families| - 1], delta, decimal, conflicting)
  }

  // ---------------------------------------------------------------- which items a family covers

  ghost predicate Covers(cases: seq<Case>, item: Item) {
    exists i :: 0 <= i < |cases| && cases[i].item == item
  }

  /** All the cases are about one item. */
  ghost predicate Concern(cases: seq<Case>, item: Item) {
    forall i :: 0 <= i < |cases| ==> cases[i].item == item
  }

  lemma CoversEither(a: seq<Case>, b: seq<Case>, item: Item)
    ensures Covers(a + b, item) <==> Covers(a, item) || Covers(b, item)
  {
    if Covers(a, item) {
      var i :| 0 <= i < |a| && a[i].item == item;
      assert (a + b)[i].item == item;
    }
    if Covers(b, item) {
      var i :| 0 <= i < |b| && b[i].item == item;
      assert (a + b)[|a| + i].item == item;
    }
  }

  lemma {:induction false} GatherCovers(order: seq<string>, cases: string -> seq<Case>, item: Item)
    ensures Covers(Gather(order, cases), item) <==> exists i :: 0 <= i < |order| && Covers(cases(order[i]), item)
  {
    if order != [] {
      var front, last := order[..|order| - 1], order[|order| - 1];
      GatherCovers(front, cases, item);
      CoversEither(Gather(front, cases), cases(last), item);
      if exists i :: 0 <= i < |order| && Covers(cases(order[i]), item) {
        var i :| 0 <= i < |order| && Covers(cases(order[i]), item);
        assert i < |front| ==> front[i] == order[i];
      }
      assert Covers(cases(last), item) ==> Covers(cases(order[|order| - 1]), item);
      assert forall i :: 0 <= i < |front| ==> front[i] == order[i];
    }
  }

  /** When only the cases of `key` can be about the item. */
  lemma GatherCoversByKey(v: Json, cases: string -> seq<Case>, item: Item, key: string)
    requires v.Obj? && Valid(v)
    requires forall k :: k in v.fields && k != key ==> !Covers(cases(k), item)
    ensures Covers(Gather(v.order, cases), item) <==> key in v.fields && Covers(cases(key), item)
  {
    GatherCovers(v.order, cases, item);
    assert forall i :: 0 <= i < |v.order| ==> v.order[i] in v.order;
    assert key in v.fields ==> key in v.order;
  }

  lemma ConcernCovers(cases: seq<Case>, item: Item, other: Item)
    requires Concern(cases, item)
    ensures Covers(cases, other) <==> cases != [] && other == item
  {
    if cases != [] { assert cases[0].item == item; }
  }

  lemma UnitsCovered(units: Json, decimal: Json -> Option<real>, conflicting: set<string>, item: Item)
    requires units.Obj? && Valid(units)
    ensures Covers(Gather(units.order, UnitCases(units, decimal, conflicting)), item)
       <==> item.Unit? && item.id in units.fields && UnitCases(units, decimal, conflicting)(item.id) != []
  {
    hide Gather, Scale, UnitTerms, Covers, Valid;
    forall k ensures Concern(UnitCases(units, decimal, conflicting)(k), Unit(k)) {}
    forall k ensures Covers(UnitCases(units, decimal, conflicting)(k), item)
      <==> UnitCases(units, decimal, conflicting)(k) != [] && item == Unit(k) {
      ConcernCovers(UnitCases(units, decimal, conflicting)(k), Unit(k), item);
    }
    GatherCoversByKey(units, UnitCases(units, decimal, conflicting), item, if item.Unit? then item.id else "");
  }

  lemma {:induction false} ValuesConcern(order: seq<string>, values: Json, item: Item)
    ensures Concern(ValueCases(order, values, item), item)
  {
    var cases := (k: string) => Repeat(Case(item, "generated-metric-value-alias", true), |StringList(Get(values, k))|);
    if order != [] { ValuesConcern(order[..|order| - 1], values, item); }
  }

  lemma ConcernAll(parts: seq<Case>, more: seq<Case>, item: Item)
    requires Concern(parts, item) && Concern(more, item)
    ensures Concern(parts + more, item)
  {
  }

  lemma ConcernSimple(c: Case, n: nat, condition: bool)
    ensures Concern(Repeat(c, n), c.item) && Concern(When(condition, c), c.item)
    ensures |Repeat(c, n)| == n
  {
  }

  lemma MetricConcern(definition: Json, item: Item, siblings: bool)
    ensures Concern(CasesOfMetric(definition, item, siblings), item) && CasesOfMetric(definition, item, siblings) != []
  {
    hide ValueCases, Gather, StringList, Concern, Repeat, When;
    var values := Mapping(Get(definition, "value_aliases"));
    var aliases := Repeat(Case(item, "generated-metric-alias", true), MetricAliases(definition));
    var fields := Repeat(Case(item, "generated-metric-field", true), |StringList(Get(definition, "fields"))|);
    var valueAliases := ValueCases(values.order, values, item);
    var transform := When(Get(definition, "value_transform") == Str("absolute"),
        Case(item, "generated-metric-value-transform", true));
    var role := When(Get(definition, "date_role") == Str("publication"),
        Case(item, "generated-metric-date-role", true));
    var sibling := When(siblings, Case(item, "generated-metric-disambiguation", true));
    ValuesConcern(values.order, values, item);
    ConcernSimple(Case(item, "generated-metric-alias", true), MetricAliases(definition), true);
    ConcernSimple(Case(item, "generated-metric-field", true), |StringList(Get(definition, "fields"))|, true);
    ConcernSimple(Case(item, "generated-metric-value-transform", true), 0,
        Get(definition, "value_transform") == Str("absolute"));
    ConcernSimple(Case(item, "generated-metric-date-role", true), 0,
        Get(definition, "date_role") == Str("publication"));
    ConcernSimple(Case(item, "generated-metric-disambiguation", true), 0, siblings);
    ConcernAll(aliases, fields, item);
    ConcernAll(aliases + fields, valueAliases, item);
    ConcernAll(aliases + fields + valueAliases, transform, item);
    ConcernAll(aliases + fields + valueAliases + transform, role, item);
    ConcernAll(aliases + fields + valueAliases + transform + role, sibling, item);
  }

  lemma MetricsCovered(metrics: Json, item: Item)
    requires metrics.Obj? && Valid(metrics)
    ensures Covers(Gather(metrics.order, MetricCases(metrics)), item) <==> item.Metric? && item.id in metrics.fields
  {
    hide Gather, CasesOfMetric, Covers, Concern, Valid;
    forall k ensures Covers(MetricCases(metrics)(k), item) <==> item == Metric(k) {
      MetricConcern(Mapping(Get(metrics, k)), Metric(k), |metrics.order| > 1);
      ConcernCovers(MetricCases(metrics)(k), Metric(k), item);
    }
    GatherCoversByKey(metrics, MetricCases(metrics), item, if item.Metric? then item.id else "");
  }

  lemma DimensionValuesCovered(d: string, values: Json, item: Item)
    requires values.Obj? && Valid(values)
    ensures Covers(Gather(values.order, DimensionValueCases(d, values)), item)
       <==> item.Value? && item.dimension == d && item.id in values.fields
  {
    hide Gather, Covers, Valid, StringList;
    forall k ensures Covers(DimensionValueCases(d, values)(k), item) <==> item == Value(d, k) {
      ConcernCovers(DimensionValueCases(d, values)(k), Value(d, k), item);
    }
    GatherCoversByKey(values, DimensionValueCases(d, values), item, if item.Value? then item.id else "");
  }

  lemma DimensionsCovered(dimensions: Json, item: Item)
    requires dimensions.Obj? && Valid(dimensions)
    ensures Covers(Gather(dimensions.order, DimensionCases(dimensions)), item)
       <==> item.Value? && item.dimension in dimensions.fields && dimensions.fields[item.dimension].Obj?
            && item.id in dimensions.fields[item.dimension].fields
  {
    hide Gather;
    forall d | d in dimensions.fields
      ensures Covers(DimensionCases(dimensions)(d), item)
         <==> item.Value? && item.dimension == d && dimensions.fields[d].Obj?
              && item.id in dimensions.fields[d].fields {
      if dimensions.fields[d].Obj? { DimensionValuesCovered(d, dimensions.fields[d], item); }
    }
    GatherCoversByKey(dimensions, DimensionCases(dimensions), item, if item.Value? then item.dimension else "");
  }

  lemma DependenciesCovered(dependencies: Json, item: Item)
    requires dependencies.Obj? && Valid(dependencies)
    ensures Covers(Gather(dependencies.order, DependencyCases(dependencies)), item)
       <==> item.Dependency? && item.id in dependencies.fields && StringList(dependencies.fields[item.id]) != []
  {
    hide Gather, Covers, Valid, StringList;
    forall k ensures Covers(DependencyCases(dependencies)(k), item)
      <==> item == Dependency(k) && StringList(Get(dependencies, k)) != [] {
      ConcernCovers(DependencyCases(dependencies)(k), Dependency(k), item);
    }
    GatherCoversByKey(dependencies, DependencyCases(dependencies), item, if item.Dependency? then item.id else "");
  }

  function FamilyOf(item: Item): Option<Family> {
    match item
    case Unit(_) => Some(UnitOntology)
    case Metric(_) => Some(MetricOntology)
    case Value(_, _) => Some(DimensionOntology)
    case Dependency(_) => Some(CalculationDependencies)
    case _ => None
  }

  /** A family's generator covers exactly the coverable items of its kind. */
  lemma FamilyCovers(f: Family, delta: Json, decimal: Json -> Option<real>, conflicting: set<string>, item: Item)
    requires delta.Obj? && Valid(delta)
    ensures Covers(FamilyCases(f, delta, decimal, conflicting), item)
       <==> FamilyOf(item) == Some(f) && Declares(delta, item) && Coverable(delta, item, decimal)
  {
    hide Covers, Gather, Valid, StringList, MetricCases, DimensionCases, DependencyCases;
    PartsValid(delta);
    match f
    case UnitOntology => UnitsCovered(Units(delta), decimal, conflicting, item);
    case MetricOntology => MetricsCovered(Metrics(delta), item);
    case DimensionOntology => DimensionsCovered(Dimensions(delta), item);
    case CalculationDependencies => DependenciesCovered(Dependencies(delta), item);
  }

  lemma PartsValid(delta: Json)
    requires Valid(delta)
    ensures Valid(Units(delta)) && Valid(Metrics(delta)) && Valid(Dimensions(delta)) && Valid(Dependencies(delta))
  {
    assert Valid(Get(delta, "dimensions")) && Valid(Get(delta, "calculation_dependencies"));
  }

  lemma {:induction false} PolicyCasesCover(
      families: seq<Family>, delta: Json, decimal: Json -> Option<real>, conflicting: set<string>, item: Item)
    requires delta.Obj? && Valid(delta)
    ensures Covers(PolicyCases(families, delta, decimal, conflicting), item)
       <==> FamilyOf(item).Some? && FamilyOf(item).value in families && Declares(delta, item)
            && Coverable(delta, item, decimal)
  {
    hide Covers, FamilyCases, Declares, Coverable;
    if families == [] {
      assert !Covers([], item) by { CoversNothing(item); }
    } else {
      var front, last := families[..|families| - 1], families[|families| - 1];
      assert families == front + [last];
      PolicyCasesCover(front, delta, decimal, conflicting, item);
      FamilyCovers(last, delta, decimal, conflicting, item);
      CoversEither(PolicyCases(front, delta, decimal, conflicting), FamilyCases(last, delta, decimal, conflicting),
          item);
    }
  }

  lemma CoversNothing(item: Item)
    ensures !Covers([], item)
  {
  }

  // ---------------------------------------------------------------- references as text

  /** Dimensions and unknown top-level keys without a dot. */
  predicate Plain(item: Item) {
    match item
    case Value(d, _) => '.' !in d
    case ScalarDimension(d) => '.' !in d
    case Other(k) => '.' !in k
    case _ => true
  }

  lemma RefStarts(item: Item)
    ensures ROOT <= Ref(item) && |ROOT| == 10
    ensures !item.Other? ==> |Ref(item)| > 20 && exists i :: 10 <= i < |Ref(item)| && Ref(item)[i] == '.'
    ensures item.Unit? ==> UNITS <= Ref(item) && Ref(item)[10] == 'u'
    ensures item.Metric? ==> METRICS <= Ref(item) && Ref(item)[10] == 'm'
    ensures item.Value? || item.ScalarDimension? ==> DIMENSIONS <= Ref(item) && Ref(item)[10] == 'd'
    ensures item.Dependency? ==> DEPENDENCIES <= Ref(item) && Ref(item)[10] == 'c'
  {
    assert UNITS[23] == '.' && METRICS[25] == '.' && DIMENSIONS[20] == '.' && DEPENDENCIES[34] == '.';
    if !item.Other? {
      var i := match item case Unit(_) => 23 case Metric(_) => 25 case Dependency(_) => 34 case _ => 20;
      assert Ref(item)[i] == '.';
    }
  }

  lemma SameTail(p: string, a: string, b: string)
    requires p + a == p + b
    ensures a == b
  {
    assert a == (p + a)[|p|..] && b == (p + b)[|p|..];
  }

  lemma FirstDot(d: string, a: string, e: string, b: string)
    requires '.' !in d && '.' !in e && d + "." + a == e + "." + b
    ensures d == e && a == b
  {
    var s := d + "." + a;
    assert s[|d|] == '.' && s[|e|] == '.';
    assert forall i :: 0 <= i < |d| ==> s[i] == d[i] && s[i] in d;
    assert forall i :: 0 <= i < |e| ==> s[i] == e[i] && s[i] in e;
    assert |d| == |e|;
    assert d == s[..|d|] && e == s[..|e|] && a == s[|d| + 1..] && b == s[|e| + 1..];
  }

  lemma NoDotInKey(k: string)
    requires '.' !in k
    ensures forall i :: 10 <= i < |Ref(Other(k))| ==> Ref(Other(k))[i] != '.'
  {
    forall i | 10 <= i < |Ref(Other(k))| ensures Ref(Other(k))[i] != '.' {
      assert Ref(Other(k))[i] == k[i - 10];
    }
  }

  /** Different items have different references. */
  lemma RefInjective(a: Item, b: Item)
    requires Plain(a) && Plain(b) && Ref(a) == Ref(b)
    ensures a == b
  {
    RefStarts(a);
    RefStarts(b);
    if a.Other? { NoDotInKey(a.key); }
    if b.Other? { NoDotInKey(b.key); }
    RefInjectiveOfKind(a, b);
    if a.Value? && b.ScalarDimension? { DottedIsNoDimension(a, b); }
    if b.Value? && a.ScalarDimension? { DottedIsNoDimension(b, a); }
  }

  lemma DottedIsNoDimension(a: Item, b: Item)
    requires a.Value? && b.ScalarDimension? && Plain(b)
    ensures Ref(a) != Ref(b)
  {
    var s := a.dimension + "." + a.id;
    assert Ref(a) == DIMENSIONS + s;
    assert s[|a.dimension|] == '.';
    if Ref(a) == Ref(b) { SameTail(DIMENSIONS, s, b.dimension); }
  }

  lemma RefInjectiveOfKind(a: Item, b: Item)
    requires Plain(a) && Plain(b) && Ref(a) == Ref(b)
    ensures FamilyOf(a) == FamilyOf(b) && a.Other? == b.Other? ==> a == b
  {
    match (a, b)
    case (Unit(x), Unit(y)) => SameTail(UNITS, x, y);
    case (Metric(x), Metric(y)) => SameTail(METRICS, x, y);
    case (Dependency(x), Dependency(y)) => SameTail(DEPENDENCIES, x, y);
    case (Other(x), Other(y)) => SameTail(ROOT, x, y);
    case (ScalarDimension(x), ScalarDimension(y)) => SameTail(DIMENSIONS, x, y);
    case (Value(x, u), Value(y, v)) =>
      assert DIMENSIONS + x + "." + u == DIMENSIONS + (x + "." + u);
      assert DIMENSIONS + y + "." + v == DIMENSIONS + (y + "." + v);
      SameTail(DIMENSIONS, x + "." + u, y + "." + v);
      FirstDot(x, u, y, v);
    case _ =>
  }
}
