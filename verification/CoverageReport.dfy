// The coverage report over all layers: what it counts, and when it finds nothing wrong.

module CoverageReport {
  import opened Options
  import opened PolicyMerge
  import opened PolicyCoverage
  import opened CaseGenerators

  /** An owner layer and a reference. */
  type Target = (string, string)

  datatype Report = Report(
      required: nat, covered: nat, rate: real, failed: nat, uncovered: set<Target>, unknown: set<Target>)

  function CoverageOf(targets: set<Target>, covered: set<Target>): Report {
    Report(
      |targets|,
      |targets * covered|,
      if targets == {} then 1.0 else |targets * covered| as real / |targets| as real,
      |targets - covered| + |covered - targets|,
      targets - covered,
      covered - targets)
  }

  function OfOwner(owner: string, all: set<Target>): set<Target> {
    set t | t in all && t.0 == owner
  }

  lemma CountsAddUp(targets: set<Target>, covered: set<Target>)
    ensures var r := CoverageOf(targets, covered);
            && r.required == r.covered + |r.uncovered|
            && (r.failed == 0 <==> targets == covered)
            && 0.0 <= r.rate <= 1.0 && (r.rate == 1.0 <==> targets <= covered)
  {
    var hit, miss, extra := targets * covered, targets - covered, covered - targets;
    assert targets == hit + miss && |targets| == |hit| + |miss|;
    NothingBeyond(targets, covered);
    NothingBeyond(covered, targets);
    assert |miss| == 0 <==> miss == {};
    if targets != {} { RateBounds(|hit|, |targets|); }
  }

  lemma NothingBeyond(a: set<Target>, b: set<Target>)
    ensures a - b == {} <==> a <= b
  {
    if a - b == {} {
      forall x | x in a ensures x in b { assert x !in a - b; }
    }
  }

  lemma RateBounds(m: nat, n: nat)
    requires m <= n && n > 0
    ensures 0.0 <= m as real / n as real <= 1.0
    ensures m as real / n as real == 1.0 <==> m == n
  {
  }

  function RequiredOver(owners: seq<string>, all: set<Target>): nat {
    if owners == [] then 0 else |OfOwner(owners[0], all)| + RequiredOver(owners[1..], all)
  }

  /** The per-layer counts, over owners that include every target's, add up to the total. */
  lemma {:induction false} LayerCountsAddUp(owners: seq<string>, all: set<Target>)
    requires Distinct(owners) && forall t :: t in all ==> t.0 in owners
    ensures RequiredOver(owners, all) == |all|
  {
    if owners == [] {
      assert all == {};
    } else {
      var first := OfOwner(owners[0], all);
      var rest := all - first;
      assert all == first + rest;
      LayerCountsAddUp(owners[1..], rest);
      SameOver(owners[1..], all, rest);
    }
  }

  lemma {:induction false} SameOver(owners: seq<string>, all: set<Target>, rest: set<Target>)
    requires forall o :: o in owners ==> OfOwner(o, all) == OfOwner(o, rest)
    ensures RequiredOver(owners, all) == RequiredOver(owners, rest)
  {
    if owners != [] { SameOver(owners[1..], all, rest); }
  }

  // ---------------------------------------------------------------- layers

  /** A policy layer with its fixture: the enabled families, the units with an incompatible
      one, and the references on hand-written cases. */
  datatype Layer = Layer(
      owner: string, delta: Json, families: seq<Family>, conflicting: set<string>, declared: set<string>)

  ghost predicate ValidLayers(layers: seq<Layer>) {
    && (forall i :: 0 <= i < |layers| ==> layers[i].delta.Obj? && Valid(layers[i].delta))
    && (forall i, j :: 0 <= i < j < |layers| ==> layers[i].owner != layers[j].owner)
  }

  /** The references on the layer's cases. */
  function CaseRefs(l: Layer, decimal: Json -> Option<real>): set<string> {
    (set c | c in PolicyCases(l.families, l.delta, decimal, l.conflicting) :: Ref(c.item)) + l.declared
  }

  function AllTargets(layers: seq<Layer>): set<Target>
    requires forall i :: 0 <= i < |layers| ==> layers[i].delta.Obj?
  {
    set i, r | 0 <= i < |layers| && r in Targets(layers[i].delta) :: (layers[i].owner, r)
  }

  function AllCovered(layers: seq<Layer>, decimal: Json -> Option<real>): set<Target> {
    set i, r | 0 <= i < |layers| && r in CaseRefs(layers[i], decimal) :: (layers[i].owner, r)
  }

  /** Some case is generated for the item. */
  ghost predicate Generated(l: Layer, decimal: Json -> Option<real>, item: Item)
    requires l.delta.Obj?
  {
    && FamilyOf(item).Some? && FamilyOf(item).value in l.families
    && Declares(l.delta, item) && Coverable(l.delta, item, decimal)
  }

  lemma GeneratedRefs(l: Layer, decimal: Json -> Option<real>, r: string)
    requires l.delta.Obj? && Valid(l.delta)
    ensures r in (set c | c in PolicyCases(l.families, l.delta, decimal, l.conflicting) :: Ref(c.item))
       <==> exists item :: Generated(l, decimal, item) && Ref(item) == r
  {
    hide Ref, Declares, Coverable, PolicyCases, Valid;
    var cases := PolicyCases(l.families, l.delta, decimal, l.conflicting);
    if c :| c in cases && Ref(c.item) == r {
      var i :| 0 <= i < |cases| && cases[i] == c;
      assert Covers(cases, c.item);
      PolicyCasesCover(l.families, l.delta, decimal, l.conflicting, c.item);
      assert Generated(l, decimal, c.item);
    }
    if item :| Generated(l, decimal, item) && Ref(item) == r {
      PolicyCasesCover(l.families, l.delta, decimal, l.conflicting, item);
      var i :| 0 <= i < |cases| && cases[i].item == item;
      assert cases[i] in cases;
    }
  }

  lemma TargetRefs(delta: Json, r: string)
    requires delta.Obj?
    ensures r in Targets(delta) <==> exists item :: Declares(delta, item) && Ref(item) == r
  {
    hide Ref, Declares, Items;
    if r in Targets(delta) {
      var item :| item in Items(delta) && Ref(item) == r;
      ItemsAreDeclared(delta, item);
    }
    if item :| Declares(delta, item) && Ref(item) == r { ItemsAreDeclared(delta, item); }
  }

  /** Every reference on a generated case is a target of its layer. */
  lemma GeneratedAreTargets(l: Layer, decimal: Json -> Option<real>)
    requires l.delta.Obj? && Valid(l.delta)
    ensures CaseRefs(l, decimal) - l.declared <= Targets(l.delta)
  {
    hide Targets, PolicyCases, Ref, Declares, Coverable, Valid;
    forall r | r in CaseRefs(l, decimal) - l.declared ensures r in Targets(l.delta) {
      GeneratedRefs(l, decimal, r);
      TargetRefs(l.delta, r);
    }
  }

  /** Hand-written cases name the item. */
  ghost predicate Named(l: Layer, item: Item) {
    Ref(item) in l.declared
  }

  /** The item has no case of its own, and yet a case carries its reference: that of an item it
      shares the reference with. */
  ghost predicate Borrows(l: Layer, decimal: Json -> Option<real>, item: Item)
    requires l.delta.Obj?
  {
    && Declares(l.delta, item) && !Generated(l, decimal, item)
    && exists other :: Generated(l, decimal, other) && Ref(other) == Ref(item)
  }

  /** The layer's own condition: hand-written cases name declared items, and they name every
      item for which no case is generated. */
  ghost predicate Complete(l: Layer, decimal: Json -> Option<real>)
    requires l.delta.Obj?
  {
    && l.declared <= Targets(l.delta)
    && forall item :: Declares(l.delta, item) && !Generated(l, decimal, item) ==> Named(l, item)
  }

  /** What the report makes of it: a borrowed reference will do. */
  ghost predicate Covered(l: Layer, decimal: Json -> Option<real>)
    requires l.delta.Obj?
  {
    && l.declared <= Targets(l.delta)
    && forall item :: Declares(l.delta, item) && !Generated(l, decimal, item)
         ==> Named(l, item) || Borrows(l, decimal, item)
  }

  /** The exact condition for a layer without uncovered or unknown references. */
  lemma LayerCoveredIff(l: Layer, decimal: Json -> Option<real>)
    requires l.delta.Obj? && Valid(l.delta)
    ensures CaseRefs(l, decimal) == Targets(l.delta) <==> Covered(l, decimal)
  {
    hide Targets, PolicyCases, Ref, Declares, Coverable, Valid, FamilyOf;
    var refs := CaseRefs(l, decimal);
    GeneratedAreTargets(l, decimal);
    if Covered(l, decimal) {
      forall r | r in Targets(l.delta) ensures r in refs {
        TargetRefs(l.delta, r);
        GeneratedRefs(l, decimal, r);
      }
    }
    if refs == Targets(l.delta) {
      forall item | Declares(l.delta, item) && !Generated(l, decimal, item)
        ensures Named(l, item) || Borrows(l, decimal, item) {
        TargetRefs(l.delta, Ref(item));
        GeneratedRefs(l, decimal, Ref(item));
      }
    }
  }

  lemma SetsByLayer(layers: seq<Layer>, decimal: Json -> Option<real>)
    requires ValidLayers(layers)
    ensures AllTargets(layers) == AllCovered(layers, decimal)
       <==> forall i :: 0 <= i < |layers| ==> CaseRefs(layers[i], decimal) == Targets(layers[i].delta)
  {
    hide Targets, CaseRefs, Valid;
    var T, C := AllTargets(layers), AllCovered(layers, decimal);
    forall i, r | 0 <= i < |layers|
      ensures (layers[i].owner, r) in T <==> r in Targets(layers[i].delta)
      ensures (layers[i].owner, r) in C <==> r in CaseRefs(layers[i], decimal) {
    }
    if T == C {
      forall i | 0 <= i < |layers| ensures CaseRefs(layers[i], decimal) == Targets(layers[i].delta) {
        forall r ensures r in CaseRefs(layers[i], decimal) <==> r in Targets(layers[i].delta) {
          assert (layers[i].owner, r) in T <==> (layers[i].owner, r) in C;
        }
      }
    }
  }

  /** The report counts no failure exactly when in every layer the hand-written cases name
      declared items only, and every item without a case of its own is named or borrows. */
  lemma NoFailureIff(layers: seq<Layer>, decimal: Json -> Option<real>)
    requires ValidLayers(layers)
    ensures CoverageOf(AllTargets(layers), AllCovered(layers, decimal)).failed == 0
       <==> forall i :: 0 <= i < |layers| ==> Covered(layers[i], decimal)
  {
    hide AllTargets, AllCovered, CaseRefs, Covered, CoverageOf;
    CountsAddUp(AllTargets(layers), AllCovered(layers, decimal));
    SetsByLayer(layers, decimal);
    forall i | 0 <= i < |layers|
      ensures Covered(layers[i], decimal) <==> CaseRefs(layers[i], decimal) == Targets(layers[i].delta) {
      LayerCoveredIff(layers[i], decimal);
    }
  }

  /** A report without failures means complete coverage exactly when no item that is neither
      generated nor named borrows its reference. */
  lemma NoFailureMeansCompleteIff(layers: seq<Layer>, decimal: Json -> Option<real>)
    requires ValidLayers(layers)
    requires CoverageOf(AllTargets(layers), AllCovered(layers, decimal)).failed == 0
    ensures (forall i :: 0 <= i < |layers| ==> Complete(layers[i], decimal))
       <==> forall i, item :: 0 <= i < |layers| && Borrows(layers[i], decimal, item) ==> Named(layers[i], item)
  {
    NoFailureIff(layers, decimal);
    hide AllTargets, AllCovered, CoverageOf, Targets, Named, Generated, Declares;
  }

  /** For a policy layer and its families, whatever the hand-written cases: without failures means
      complete exactly when no ungenerated item shares its reference with a generated one. */
  lemma LayerIsTrustworthyIff(l: Layer, decimal: Json -> Option<real>)
    requires l.delta.Obj? && Valid(l.delta)
    ensures (forall named :: CaseRefs(l.(declared := named), decimal) == Targets(l.delta)
               ==> Complete(l.(declared := named), decimal))
       <==> forall item :: !Borrows(l, decimal, item)
  {
    hide Targets, PolicyCases, Ref, Declares, Coverable, Valid, FamilyOf;
    if item :| Borrows(l, decimal, item) {
      var gap := l.(declared := Targets(l.delta) - {Ref(item)});
      assert forall other :: Generated(gap, decimal, other) <==> Generated(l, decimal, other);
      GeneratedRefs(gap, decimal, Ref(item));
      TargetRefs(l.delta, Ref(item));
      GeneratedAreTargets(gap, decimal);
      assert CaseRefs(gap, decimal) == Targets(l.delta);
      assert !Named(gap, item);
    }
    forall named | CaseRefs(l.(declared := named), decimal) == Targets(l.delta)
      ensures (forall item :: !Borrows(l, decimal, item)) ==> Complete(l.(declared := named), decimal) {
      var m := l.(declared := named);
      LayerCoveredIff(m, decimal);
      assert forall other :: Generated(m, decimal, other) <==> Generated(l, decimal, other);
      assert forall item :: Borrows(m, decimal, item) ==> Borrows(l, decimal, item);
    }
  }

  /** Dot-free dimension and top-level names are enough: then nothing borrows. */
  lemma PlainNamesNeverBorrow(l: Layer, decimal: Json -> Option<real>, item: Item)
    requires l.delta.Obj? && forall i :: Declares(l.delta, i) ==> Plain(i)
    ensures !Borrows(l, decimal, item)
  {
    hide Ref, Declares, Coverable, FamilyOf;
    forall other | Declares(l.delta, item) && Generated(l, decimal, other) && Ref(other) == Ref(item)
      ensures other == item {
      RefInjective(other, item);
    }
  }

  const DIMS: Json := Obj(["a", "a.b"], map["a" := Obj(["b"], map["b" := Null]), "a.b" := Null])
  const DOTTED: Json := Obj(["dimensions"], map["dimensions" := DIMS])

  const COVERED: Item := Value("a", "b")
  const GAP: Item := ScalarDimension("a.b")

  lemma DottedValid()
    ensures Valid(DOTTED)
  {
    var inner := Obj(["b"], map["b" := Null]);
    assert Valid(inner);
    assert |"a"| != |"a.b"|;
    assert DIMS.order[0] == "a" && DIMS.order[1] == "a.b";
    assert Valid(DIMS);
    assert DOTTED.order[0] == "dimensions";
  }

  lemma DottedParts()
    ensures Units(DOTTED) == EMPTY && Metrics(DOTTED) == EMPTY && Dependencies(DOTTED) == EMPTY
            && Dimensions(DOTTED) == DIMS
    ensures forall k :: k in DOTTED.fields ==> k in KNOWN
  {
    assert "dimensions"[0] == 'd' && "unit_ontology"[0] == 'u' && "metric_ontology"[0] == 'm'
      && "calculation_dependencies"[0] == 'c';
  }

  lemma DottedDeclares(item: Item)
    ensures Ref(COVERED) == Ref(GAP)
    ensures Declares(DOTTED, item) <==> item == COVERED || item == GAP
  {
    hide Units, Metrics, Dependencies, Dimensions;
    DottedParts();
  }

  /** A dotted name can borrow the coverage of another item: here two are declared, one of them
      has no case, and the report counts no failure. */
  lemma DottedNamesHideAGap(decimal: Json -> Option<real>)
    ensures var l := Layer("oss", DOTTED, [DimensionOntology], {}, {});
            Valid(DOTTED) && !Complete(l, decimal) && CaseRefs(l, decimal) == Targets(DOTTED)
  {
    hide Ref, Declares, Valid, PolicyCases, Targets;
    var l := Layer("oss", DOTTED, [DimensionOntology], {}, {});
    forall item ensures Declares(DOTTED, item) <==> item == COVERED || item == GAP { DottedDeclares(item); }
    DottedValid();
    DottedDeclares(GAP);
    assert !Generated(l, decimal, GAP) && Generated(l, decimal, COVERED);
    GeneratedAreTargets(l, decimal);
    forall r | r in Targets(DOTTED) ensures r in CaseRefs(l, decimal) {
      TargetRefs(DOTTED, r);
      GeneratedRefs(l, decimal, r);
    }
  }

  // ---------------------------------------------------------------- what the report says

  /** A declared item of the layer has the reference. */
  ghost predicate Required(l: Layer, r: string)
    requires l.delta.Obj?
  {
    exists item :: Declares(l.delta, item) && Ref(item) == r
  }

  /** A hand-written or a generated case of the layer carries the reference. */
  ghost predicate Carried(l: Layer, decimal: Json -> Option<real>, r: string)
    requires l.delta.Obj?
  {
    r in l.declared || exists item :: Generated(l, decimal, item) && Ref(item) == r
  }

  ghost predicate Uncovered(layers: seq<Layer>, decimal: Json -> Option<real>, owner: string, r: string)
    requires ValidLayers(layers)
  {
    exists i :: && 0 <= i < |layers| && layers[i].owner == owner
                && Required(layers[i], r) && !Carried(layers[i], decimal, r)
  }

  ghost predicate Unknown(layers: seq<Layer>, decimal: Json -> Option<real>, owner: string, r: string)
    requires ValidLayers(layers)
  {
    exists i :: && 0 <= i < |layers| && layers[i].owner == owner
                && Carried(layers[i], decimal, r) && !Required(layers[i], r)
  }

  lemma LayerMembers(l: Layer, decimal: Json -> Option<real>, r: string)
    requires l.delta.Obj? && Valid(l.delta)
    ensures r in Targets(l.delta) <==> Required(l, r)
    ensures r in CaseRefs(l, decimal) <==> Carried(l, decimal, r)
  {
    hide Targets, PolicyCases, Generated, Declares, Ref, Valid;
    TargetRefs(l.delta, r);
    GeneratedRefs(l, decimal, r);
  }

  lemma Members(layers: seq<Layer>, decimal: Json -> Option<real>, owner: string, r: string)
    requires ValidLayers(layers)
    ensures (owner, r) in AllTargets(layers)
       <==> exists i :: 0 <= i < |layers| && layers[i].owner == owner && Required(layers[i], r)
    ensures (owner, r) in AllTargets(layers) - AllCovered(layers, decimal) <==> Uncovered(layers, decimal, owner, r)
    ensures (owner, r) in AllCovered(layers, decimal) - AllTargets(layers) <==> Unknown(layers, decimal, owner, r)
  {
    hide Targets, CaseRefs, Valid, Required, Carried;
    forall i | 0 <= i < |layers|
      ensures r in Targets(layers[i].delta) <==> Required(layers[i], r)
      ensures r in CaseRefs(layers[i], decimal) <==> Carried(layers[i], decimal, r) {
      LayerMembers(layers[i], decimal, r);
    }
  }

  lemma ReportCounts(targets: set<Target>, covered: set<Target>)
    ensures var report := CoverageOf(targets, covered);
            && report.uncovered == targets - covered && report.unknown == covered - targets
            && report.required == |targets| == report.covered + |report.uncovered|
            && report.failed == |report.uncovered| + |report.unknown|
            && if report.required == 0 then report.rate == 1.0
               else report.rate * report.required as real == report.covered as real
  {
    CountsAddUp(targets, covered);
    if targets != {} { RateTimes(|targets * covered|, |targets|); }
  }

  /** The rate is the covered share of what is required. */
  lemma RateTimes(m: nat, n: nat)
    requires n > 0
    ensures m as real / n as real * n as real == m as real
  {
  }

  /** Targets and cases of all layers, collected layer by layer, and the report on them. */
  method EvaluateCoverage(layers: seq<Layer>, decimal: Json -> Option<real>) returns (report: Report)
    requires ValidLayers(layers)
    ensures report == CoverageOf(AllTargets(layers), AllCovered(layers, decimal))
    ensures forall o, r :: (o, r) in report.uncovered <==> Uncovered(layers, decimal, o, r)
    ensures forall o, r :: (o, r) in report.unknown <==> Unknown(layers, decimal, o, r)
    ensures report.required == |AllTargets(layers)| == report.covered + |report.uncovered|
    ensures report.failed == |report.uncovered| + |report.unknown|
    ensures if report.required == 0 then report.rate == 1.0
            else report.rate * report.required as real == report.covered as real
  {
    hide AllTargets, AllCovered, Uncovered, Unknown, CoverageOf, Valid;
    report := CollectCoverage(layers, decimal);
    ReportCounts(AllTargets(layers), AllCovered(layers, decimal));
    forall o, r
      ensures (o, r) in report.uncovered <==> Uncovered(layers, decimal, o, r)
      ensures (o, r) in report.unknown <==> Unknown(layers, decimal, o, r) {
      Members(layers, decimal, o, r);
    }
  }

  method CollectCoverage(layers: seq<Layer>, decimal: Json -> Option<real>) returns (report: Report)
    requires ValidLayers(layers)
    ensures report == CoverageOf(AllTargets(layers), AllCovered(layers, decimal))
  {
    hide Targets, PolicyCases, Valid, Ref;
    var targets, covered: set<Target> := {}, {};
    var i := 0;
    while i < |layers|
      invariant i <= |layers|
      invariant targets == set j, r | 0 <= j < i && r in Targets(layers[j].delta) :: (layers[j].owner, r)
      invariant covered == set j, r | 0 <= j < i && r in CaseRefs(layers[j], decimal) :: (layers[j].owner, r)
    {
      var l := layers[i];
      var refs := SemanticPolicyRefs(l.delta);
      var cases := GeneratePolicyCases(l.families, l.delta, decimal, l.conflicting);
      var caseRefs := (set c | c in cases :: Ref(c.item)) + l.declared;
      targets := targets + set r | r in refs :: (l.owner, r);
      covered := covered + set r | r in caseRefs :: (l.owner, r);
      i := i + 1;
    }
    report := CoverageOf(targets, covered);
  }
}
