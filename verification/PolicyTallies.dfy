// How many generated cases there are, of which group, with gold evidence or without.

module PolicyTallies {
  import opened Options
  import opened PolicyMerge
  import opened PolicyCoverage

  function Tally(cases: seq<Case>, c: Case): nat { multiset(cases)[c] }

  lemma TallyOfParts(a: seq<Case>, b: seq<Case>, c: Case)
    ensures Tally(a + b, c) == Tally(a, c) + Tally(b, c)
  {
  }

  lemma {:induction false} TallyOfRepeat(d: Case, n: nat, c: Case)
    ensures Tally(Repeat(d, n), c) == if c == d then n else 0
  {
    if n > 0 {
      assert Repeat(d, n) == Repeat(d, n - 1) + [d];
      TallyOfRepeat(d, n - 1, c);
    }
  }

  lemma TallyOfWhen(condition: bool, d: Case, c: Case)
    ensures Tally(When(condition, d), c) == if condition && c == d then 1 else 0
  {
  }

  lemma TallyElsewhere(cases: seq<Case>, item: Item, c: Case)
    requires Concern(cases, item) && c.item != item
    ensures Tally(cases, c) == 0
  {
    forall i | 0 <= i < |cases| ensures cases[i] != c { assert cases[i].item == item; }
  }

  /** Cases of different keys are about different items: only those of `key` count. */
  lemma {:induction false} TallyOfGather(order: seq<string>, cases: string -> seq<Case>, c: Case, key: string)
    requires Distinct(order)
    requires forall k :: k in order && k != key ==> Tally(cases(k), c) == 0
    ensures Tally(Gather(order, cases), c) == if key in order then Tally(cases(key), c) else 0
  {
    if order != [] {
      var front, last := order[..|order| - 1], order[|order| - 1];
      assert forall k :: k in order <==> k in front || k == last;
      TallyOfGather(front, cases, c, key);
      TallyOfParts(Gather(front, cases), cases(last), c);
    }
  }

  /** The cases come in the order of the keys. */
  lemma {:induction false} GatherJoins(a: seq<string>, b: seq<string>, cases: string -> seq<Case>)
    ensures Gather(a + b, cases) == Gather(a, cases) + Gather(b, cases)
    decreases |b|
  {
    if b == [] {
      assert a + b == a;
    } else {
      assert (a + b)[..|a + b| - 1] == a + b[..|b| - 1];
      GatherJoins(a, b[..|b| - 1], cases);
    }
  }

  // ---------------------------------------------------------------- per item

  /** A unit with a scale has a positive case for each alias, or one when it has none but the scale
      one; and a negative case when it has a positive one and another unit conflicts with it. */
  lemma TallyOfUnit(definition: Json, item: Item, decimal: Json -> Option<real>, conflict: bool, c: Case)
    ensures Tally(CasesOfUnit(definition, item, decimal, conflict), c) ==
      if !definition.Obj? then 0
      else
        var scale := decimal(if "scale" in definition.fields then definition.fields["scale"] else Num("1"));
        var aliases := |StringList(Get(definition, "aliases"))|;
        var terms := if scale.None? then 0 else if aliases == 0 && scale.value == 1.0 then 1 else aliases;
        (if c == Case(item, "generated-unit-equivalence", true) then terms else 0)
        + if c == Case(item, "generated-unit-conflict", false) && terms > 0 && conflict then 1 else 0
  {
    hide StringList, Repeat, When, Tally;
    TallyOfNone(c);
    if definition.Obj? && Scale(definition, decimal).Some? {
      var terms := UnitTerms(definition, decimal);
      var equivalence := Case(item, "generated-unit-equivalence", true);
      var conflicts := Case(item, "generated-unit-conflict", false);
      TallyOfRepeat(equivalence, terms, c);
      TallyOfWhen(terms > 0 && conflict, conflicts, c);
      TallyOfParts(Repeat(equivalence, terms), When(terms > 0 && conflict, conflicts), c);
    }
  }

  lemma TallyOfNone(c: Case)
    ensures Tally([], c) == 0
  {
  }

  /** How many aliases the values of a mapping have together. */
  function AliasesIn(order: seq<string>, values: Json): nat {
    if order == [] then 0
    else AliasesIn(order[..|order| - 1], values) + |StringList(Get(values, order[|order| - 1]))|
  }

  lemma {:induction false} TallyOfValues(order: seq<string>, values: Json, item: Item, c: Case)
    ensures Tally(ValueCases(order, values, item), c)
         == if c == Case(item, "generated-metric-value-alias", true) then AliasesIn(order, values) else 0
  {
    hide StringList, Repeat, Tally;
    TallyOfNone(c);
    if order != [] {
      var front, last := order[..|order| - 1], order[|order| - 1];
      var d, n := Case(item, "generated-metric-value-alias", true), |StringList(Get(values, last))|;
      TallyOfValues(front, values, item, c);
      TallyOfRepeat(d, n, c);
      TallyOfParts(ValueCases(front, values, item), Repeat(d, n), c);
    }
  }

  /** A metric has a positive case for each alias, or one for its id when it has none; one for each
      field and each value alias; one for an absolute transform, one for a publication date; and one
      against a sibling metric. */
  lemma TallyOfMetric(definition: Json, item: Item, siblings: bool, c: Case)
    ensures Tally(CasesOfMetric(definition, item, siblings), c) ==
      var aliases := |StringList(Get(definition, "aliases"))|;
      var values := Get(definition, "value_aliases");
      (if c == Case(item, "generated-metric-alias", true) then (if aliases == 0 then 1 else aliases) else 0)
      + (if c == Case(item, "generated-metric-field", true) then |StringList(Get(definition, "fields"))| else 0)
      + (if c == Case(item, "generated-metric-value-alias", true) && values.Obj?
         then AliasesIn(values.order, values) else 0)
      + (if c == Case(item, "generated-metric-value-transform", true)
            && Get(definition, "value_transform") == Str("absolute") then 1 else 0)
      + (if c == Case(item, "generated-metric-date-role", true)
            && Get(definition, "date_role") == Str("publication") then 1 else 0)
      + (if c == Case(item, "generated-metric-disambiguation", true) && siblings then 1 else 0)
  {
    hide StringList, Repeat, When, Tally, ValueCases;
    var values := Mapping(Get(definition, "value_aliases"));
    var absolute := Get(definition, "value_transform") == Str("absolute");
    var publication := Get(definition, "date_role") == Str("publication");
    var aliases := Repeat(Case(item, "generated-metric-alias", true), MetricAliases(definition));
    var fields := Repeat(Case(item, "generated-metric-field", true), |StringList(Get(definition, "fields"))|);
    var valueAliases := ValueCases(values.order, values, item);
    var transform := When(absolute, Case(item, "generated-metric-value-transform", true));
    var role := When(publication, Case(item, "generated-metric-date-role", true));
    var sibling := When(siblings, Case(item, "generated-metric-disambiguation", true));
    TallyOfRepeat(Case(item, "generated-metric-alias", true), MetricAliases(definition), c);
    TallyOfRepeat(Case(item, "generated-metric-field", true), |StringList(Get(definition, "fields"))|, c);
    TallyOfValues(values.order, values, item, c);
    TallyOfWhen(absolute, Case(item, "generated-metric-value-transform", true), c);
    TallyOfWhen(publication, Case(item, "generated-metric-date-role", true), c);
    TallyOfWhen(siblings, Case(item, "generated-metric-disambiguation", true), c);
    TallyOfParts(aliases, fields, c);
    TallyOfParts(aliases + fields, valueAliases, c);
    TallyOfParts(aliases + fields + valueAliases, transform, c);
    TallyOfParts(aliases + fields + valueAliases + transform, role, c);
    TallyOfParts(aliases + fields + valueAliases + transform + role, sibling, c);
  }

  /** A dimension value has a positive case for each alias, or one when it has none, and a negative
      one when the dimension has another value. */
  lemma TallyOfValue(dimension: string, values: Json, id: string, c: Case)
    requires values.Obj?
    ensures Tally(DimensionValueCases(dimension, values)(id), c) ==
      var aliases := |StringList(Get(values, id))|;
      (if c == Case(Value(dimension, id), "generated-dimension-alias", true)
       then (if aliases == 0 then 1 else aliases) else 0)
      + (if c == Case(Value(dimension, id), "generated-dimension-conflict", false) && |values.order| > 1 then 1 else 0)
  {
    hide StringList, Repeat, When, Tally;
    var n := if StringList(Get(values, id)) == [] then 1 else |StringList(Get(values, id))|;
    var alias, conflict := Case(Value(dimension, id), "generated-dimension-alias", true),
                           Case(Value(dimension, id), "generated-dimension-conflict", false);
    TallyOfRepeat(alias, n, c);
    TallyOfWhen(|values.order| > 1, conflict, c);
    TallyOfParts(Repeat(alias, n), When(|values.order| > 1, conflict), c);
  }

  // ---------------------------------------------------------------- per policy

  /** The cases of one item of one family. */
  function OwnCases(
      item: Item, delta: Json, decimal: Json -> Option<real>, conflicting: set<string>): seq<Case>
    requires delta.Obj? && Declares(delta, item)
  {
    match item
    case Unit(id) => CasesOfUnit(Units(delta).fields[id], item, decimal, id in conflicting)
    case Metric(id) => CasesOfMetric(Mapping(Metrics(delta).fields[id]), item, |Metrics(delta).order| > 1)
    case Value(d, id) => DimensionValueCases(d, Dimensions(delta).fields[d])(id)
    case Dependency(id) =>
      Repeat(Case(item, "generated-calculation-dependency", true), |StringList(Dependencies(delta).fields[id])|)
    case _ => []
  }

  lemma TallyOfUnits(units: Json, decimal: Json -> Option<real>, conflicting: set<string>, c: Case)
    requires units.Obj? && Valid(units)
    ensures Tally(Gather(units.order, UnitCases(units, decimal, conflicting)), c)
         == if c.item.Unit? && c.item.id in units.fields
            then Tally(UnitCases(units, decimal, conflicting)(c.item.id), c) else 0
  {
    hide Gather, Scale, UnitTerms, Tally, Valid;
    var cases := UnitCases(units, decimal, conflicting);
    var key := if c.item.Unit? then c.item.id else "";
    OrderOf(units);
    forall k | k in units.order && Unit(k) != c.item ensures Tally(cases(k), c) == 0 {
      TallyElsewhere(cases(k), Unit(k), c);
    }
    TallyOfGather(units.order, cases, c, key);
  }

  lemma OrderOf(v: Json)
    requires v.Obj? && Valid(v)
    ensures Distinct(v.order) && forall k :: k in v.order <==> k in v.fields
  {
  }

  lemma TallyOfMetrics(metrics: Json, c: Case)
    requires metrics.Obj? && Valid(metrics)
    ensures Tally(Gather(metrics.order, MetricCases(metrics)), c)
         == if c.item.Metric? && c.item.id in metrics.fields then Tally(MetricCases(metrics)(c.item.id), c) else 0
  {
    hide Gather, CasesOfMetric, Concern, Tally, Valid;
    var key := if c.item.Metric? then c.item.id else "";
    OrderOf(metrics);
    forall k | k in metrics.order && Metric(k) != c.item ensures Tally(MetricCases(metrics)(k), c) == 0 {
      MetricConcern(Mapping(Get(metrics, k)), Metric(k), |metrics.order| > 1);
      TallyElsewhere(MetricCases(metrics)(k), Metric(k), c);
    }
    TallyOfGather(metrics.order, MetricCases(metrics), c, key);
  }

  lemma TallyOfDimension(d: string, values: Json, c: Case)
    requires values.Obj? && Valid(values)
    ensures Tally(Gather(values.order, DimensionValueCases(d, values)), c)
         == if c.item.Value? && c.item.dimension == d && c.item.id in values.fields
            then Tally(DimensionValueCases(d, values)(c.item.id), c) else 0
  {
    hide Gather, Tally, Valid, StringList;
    var key := if c.item.Value? then c.item.id else "";
    OrderOf(values);
    forall k | k in values.order && Value(d, k) != c.item ensures Tally(DimensionValueCases(d, values)(k), c) == 0 {
      TallyElsewhere(DimensionValueCases(d, values)(k), Value(d, k), c);
    }
    TallyOfGather(values.order, DimensionValueCases(d, values), c, key);
  }

  lemma TallyOfDimensions(dimensions: Json, c: Case)
    requires dimensions.Obj? && Valid(dimensions)
    ensures Tally(Gather(dimensions.order, DimensionCases(dimensions)), c)
         == if c.item.Value? && c.item.dimension in dimensions.fields && dimensions.fields[c.item.dimension].Obj?
               && c.item.id in dimensions.fields[c.item.dimension].fields
            then Tally(DimensionValueCases(c.item.dimension, dimensions.fields[c.item.dimension])(c.item.id), c)
            else 0
  {
    hide Gather, Tally, StringList, DimensionValueCases;
    var key := if c.item.Value? then c.item.dimension else "";
    OrderOf(dimensions);
    TallyOfNone(c);
    forall d | d in dimensions.fields && dimensions.fields[d].Obj?
      ensures Tally(DimensionCases(dimensions)(d), c)
           == if c.item.Value? && c.item.dimension == d && c.item.id in dimensions.fields[d].fields
              then Tally(DimensionValueCases(d, dimensions.fields[d])(c.item.id), c) else 0 {
      TallyOfDimension(d, dimensions.fields[d], c);
    }
    TallyOfGather(dimensions.order, DimensionCases(dimensions), c, key);
  }

  lemma TallyOfDependencies(dependencies: Json, c: Case)
    requires dependencies.Obj? && Valid(dependencies)
    ensures Tally(Gather(dependencies.order, DependencyCases(dependencies)), c)
         == if c.item.Dependency? && c.item.id in dependencies.fields
            then Tally(DependencyCases(dependencies)(c.item.id), c) else 0
  {
    hide Gather, Tally, Valid, StringList;
    var key := if c.item.Dependency? then c.item.id else "";
    OrderOf(dependencies);
    forall k | k in dependencies.order && Dependency(k) != c.item
      ensures Tally(DependencyCases(dependencies)(k), c) == 0 {
      TallyElsewhere(DependencyCases(dependencies)(k), Dependency(k), c);
    }
    TallyOfGather(dependencies.order, DependencyCases(dependencies), c, key);
  }

  lemma TallyOfFamily(f: Family, delta: Json, decimal: Json -> Option<real>, conflicting: set<string>, c: Case)
    requires delta.Obj? && Valid(delta)
    ensures Tally(FamilyCases(f, delta, decimal, conflicting), c)
         == if FamilyOf(c.item) == Some(f) && Declares(delta, c.item)
            then Tally(OwnCases(c.item, delta, decimal, conflicting), c) else 0
  {
    hide Gather, Valid, StringList, Tally, CasesOfMetric, CasesOfUnit;
    PartsValid(delta);
    match f
    case UnitOntology => TallyOfUnits(Units(delta), decimal, conflicting, c);
    case MetricOntology => TallyOfMetrics(Metrics(delta), c);
    case DimensionOntology => TallyOfDimensions(Dimensions(delta), c);
    case CalculationDependencies => TallyOfDependencies(Dependencies(delta), c);
  }

  /** An item's cases are generated once for each time its family is listed, and for a declared item
      only. */
  lemma {:induction false} TallyOfPolicy(
      families: seq<Family>, delta: Json, decimal: Json -> Option<real>, conflicting: set<string>, c: Case)
    requires delta.Obj? && Valid(delta)
    ensures Tally(PolicyCases(families, delta, decimal, conflicting), c)
         == if FamilyOf(c.item).Some? && Declares(delta, c.item)
            then multiset(families)[FamilyOf(c.item).value] * Tally(OwnCases(c.item, delta, decimal, conflicting), c)
            else 0
  {
    hide FamilyCases, OwnCases, Declares, Tally, FamilyOf, Valid;
    TallyOfNone(c);
    if families != [] {
      var front, last := families[..|families| - 1], families[|families| - 1];
      assert families == front + [last];
      TallyOfPolicy(front, delta, decimal, conflicting, c);
      TallyOfFamily(last, delta, decimal, conflicting, c);
      TallyOfParts(PolicyCases(front, delta, decimal, conflicting), FamilyCases(last, delta, decimal, conflicting), c);
      if FamilyOf(c.item).Some? && Declares(delta, c.item) {
        var f, own := FamilyOf(c.item).value, Tally(OwnCases(c.item, delta, decimal, conflicting), c);
        assert multiset(families)[f] == multiset(front)[f] + if f == last then 1 else 0;
        OnceMore(multiset(front)[f], own);
      }
    }
  }

  lemma OnceMore(n: nat, m: nat)
    ensures (n + 1) * m == n * m + m
  {
  }
}
