// The layered merge of policy semantics and its algebra.

module PolicyMerge {

  /** A JSON value. An object is a Python dictionary: its keys in insertion order and the
      value of each; a number is the text it is written as. */
  datatype Json =
    | Null
    | Bool(b: bool)
    | Num(text: string)
    | Str(s: string)
    | List(items: seq<Json>)
    | Obj(order: seq<string>, fields: map<string, Json>)

  const EMPTY: Json := Obj([], map[])

  ghost predicate Distinct<T(!new)>(s: seq<T>) {
    forall i, j :: 0 <= i < j < |s| ==> s[i] != s[j]
  }

  /** What makes `order` the key order of `fields`, at every depth. */
  ghost predicate Valid(v: Json) {
    match v
    case Obj(order, fields) =>
      Distinct(order) && (forall k :: k in order <==> k in fields) && (forall k :: k in fields ==> Valid(fields[k]))
    case List(items) => forall i :: 0 <= i < |items| ==> Valid(items[i])
    case _ => true
  }

  /** The value of the canonical text of `v`: keys sorted, so their order is forgotten. */
  datatype Marker =
    | NullText
    | BoolText(b: bool)
    | NumText(text: string)
    | StrText(s: string)
    | ListText(items: seq<Marker>)
    | ObjText(fields: map<string, Marker>)

  function StableJson(v: Json): Marker {
    match v
    case Null => NullText
    case Bool(b) => BoolText(b)
    case Num(t) => NumText(t)
    case Str(s) => StrText(s)
    case List(items) => ListText(seq(|items|, i requires 0 <= i < |items| => StableJson(items[i])))
    case Obj(_, fields) => ObjText(map k | k in fields :: StableJson(fields[k]))
  }

  /** Equal but for the order of keys, at every depth. */
  ghost predicate SameValue(a: Json, b: Json) {
    match (a, b)
    case (List(x), List(y)) => |x| == |y| && forall i :: 0 <= i < |x| ==> SameValue(x[i], y[i])
    case (Obj(_, f), Obj(_, g)) => f.Keys == g.Keys && forall k :: k in f ==> SameValue(f[k], g[k])
    case _ => a == b
  }

  /** Two items count as the same exactly when they differ in key order at most. */
  lemma {:induction false} SameMarkerIffSameValue(a: Json, b: Json)
    ensures StableJson(a) == StableJson(b) <==> SameValue(a, b)
  {
    if a.List? && b.List? {
      forall i | 0 <= i < |a.items| && i < |b.items|
        ensures StableJson(a.items[i]) == StableJson(b.items[i]) <==> SameValue(a.items[i], b.items[i]) {
        SameMarkerIffSameValue(a.items[i], b.items[i]);
      }
      ListMarkers(a.items, b.items);
    } else if a.Obj? && b.Obj? {
      forall k | k in a.fields && k in b.fields
        ensures StableJson(a.fields[k]) == StableJson(b.fields[k]) <==> SameValue(a.fields[k], b.fields[k]) {
        SameMarkerIffSameValue(a.fields[k], b.fields[k]);
      }
      ObjectMarkers(a, b);
    }
  }

  lemma ListMarkers(x: seq<Json>, y: seq<Json>)
    ensures StableJson(List(x)) == StableJson(List(y))
       <==> |x| == |y| && forall i :: 0 <= i < |x| ==> StableJson(x[i]) == StableJson(y[i])
  {
    var mx, my := StableJson(List(x)).items, StableJson(List(y)).items;
    assert forall i :: 0 <= i < |x| ==> mx[i] == StableJson(x[i]);
    assert forall i :: 0 <= i < |y| ==> my[i] == StableJson(y[i]);
  }

  lemma ObjectMarkers(a: Json, b: Json)
    requires a.Obj? && b.Obj?
    ensures StableJson(a) == StableJson(b)
       <==> && a.fields.Keys == b.fields.Keys
            && forall k :: k in a.fields ==> StableJson(a.fields[k]) == StableJson(b.fields[k])
  {
    var ma, mb := StableJson(a).fields, StableJson(b).fields;
    assert ma.Keys == a.fields.Keys && mb.Keys == b.fields.Keys;
    assert forall k :: k in a.fields ==> ma[k] == StableJson(a.fields[k]);
    assert forall k :: k in b.fields ==> mb[k] == StableJson(b.fields[k]);
  }

  function Key(k: string): string { k }

  // ---------------------------------------------------------------- appending what is new

  function Marks<T, K>(s: seq<T>, mark: T -> K): set<K> {
    set i | 0 <= i < |s| :: mark(s[i])
  }

  /** The items whose mark is neither in `seen` nor carried by an earlier item. */
  function Unseen<T, K(==)>(s: seq<T>, seen: set<K>, mark: T -> K): seq<T> {
    if s == [] then []
    else if mark(s[0]) in seen then Unseen(s[1..], seen, mark)
    else [s[0]] + Unseen(s[1..], seen + {mark(s[0])}, mark)
  }

  function Extended<T, K(==)>(base: seq<T>, addition: seq<T>, mark: T -> K): seq<T> {
    base + Unseen(addition, Marks(base, mark), mark)
  }

  lemma MarksSplit<T, K>(x: seq<T>, y: seq<T>, mark: T -> K)
    ensures Marks(x + y, mark) == Marks(x, mark) + Marks(y, mark)
    ensures x != [] ==> Marks(x, mark) == {mark(x[0])} + Marks(x[1..], mark)
  {
    assert forall i :: 0 <= i < |x| ==> (x + y)[i] == x[i];
    assert forall i :: 0 <= i < |y| ==> (x + y)[|x| + i] == y[i];
    if x != [] {
      assert forall i :: 1 <= i < |x| ==> x[1..][i - 1] == x[i];
      assert forall i :: 0 <= i < |x| - 1 ==> x[1..][i] == x[i + 1];
    }
  }

  lemma {:induction false} UnseenMarks<T, K>(s: seq<T>, seen: set<K>, mark: T -> K)
    ensures Marks(Unseen(s, seen, mark), mark) == Marks(s, mark) - seen
    ensures Unseen(s, seen, mark) == [] <==> Marks(s, mark) <= seen
  {
    if s != [] {
      MarksSplit(s, [], mark);
      if mark(s[0]) in seen {
        UnseenMarks(s[1..], seen, mark);
      } else {
        UnseenMarks(s[1..], seen + {mark(s[0])}, mark);
        MarksSplit([s[0]], Unseen(s[1..], seen + {mark(s[0])}, mark), mark);
        assert Marks([s[0]], mark) == {mark(s[0])} by { assert [s[0]][0] == s[0]; }
      }
    }
  }

  lemma {:induction false} UnseenSplit<T, K>(x: seq<T>, y: seq<T>, seen: set<K>, mark: T -> K)
    ensures Unseen(x + y, seen, mark) == Unseen(x, seen, mark) + Unseen(y, seen + Marks(x, mark), mark)
  {
    if x == [] {
      assert x + y == y && seen + Marks(x, mark) == seen;
    } else {
      MarksSplit(x, [], mark);
      assert (x + y)[1..] == x[1..] + y;
      var more := if mark(x[0]) in seen then seen else seen + {mark(x[0])};
      UnseenSplit(x[1..], y, more, mark);
      assert more + Marks(x[1..], mark) == seen + Marks(x, mark);
    }
  }

  lemma {:induction false} UnseenTwice<T, K>(s: seq<T>, few: set<K>, more: set<K>, mark: T -> K)
    requires few <= more
    ensures Unseen(Unseen(s, few, mark), more, mark) == Unseen(s, more, mark)
  {
    if s != [] {
      var m := mark(s[0]);
      if m in few {
        UnseenTwice(s[1..], few, more, mark);
      } else if m in more {
        UnseenTwice(s[1..], few + {m}, more, mark);
      } else {
        UnseenTwice(s[1..], few + {m}, more + {m}, mark);
      }
    }
  }

  lemma ExtendedMarks<T, K>(a: seq<T>, b: seq<T>, mark: T -> K)
    ensures Marks(Extended(a, b, mark), mark) == Marks(a, mark) + Marks(b, mark)
  {
    UnseenMarks(b, Marks(a, mark), mark);
    MarksSplit(a, Unseen(b, Marks(a, mark), mark), mark);
  }

  lemma ExtendedTwice<T, K>(a: seq<T>, b: seq<T>, mark: T -> K)
    ensures Extended(a, a, mark) == a
    ensures Extended(Extended(a, b, mark), b, mark) == Extended(a, b, mark)
  {
    UnseenMarks(a, Marks(a, mark), mark);
    ExtendedMarks(a, b, mark);
    UnseenMarks(b, Marks(Extended(a, b, mark), mark), mark);
  }

  lemma ExtendedAssociative<T, K>(a: seq<T>, b: seq<T>, c: seq<T>, mark: T -> K)
    ensures Extended(Extended(a, b, mark), c, mark) == Extended(a, Extended(b, c, mark), mark)
  {
    var A, B := Marks(a, mark), Marks(b, mark);
    ExtendedMarks(a, b, mark);
    UnseenSplit(b, Unseen(c, B, mark), A, mark);
    UnseenTwice(c, B, A + B, mark);
  }

  /** No two items carry the same mark, and none carries one of `seen`. */
  ghost predicate AllNew<T(!new), K(!new)>(s: seq<T>, seen: set<K>, mark: T -> K) {
    && (forall i :: 0 <= i < |s| ==> mark(s[i]) !in seen)
    && (forall i, j :: 0 <= i < j < |s| ==> mark(s[i]) != mark(s[j]))
  }

  lemma {:induction false} UnseenKeepsAll<T(!new), K(!new)>(s: seq<T>, seen: set<K>, mark: T -> K)
    ensures |Unseen(s, seen, mark)| <= |s|
    ensures Unseen(s, seen, mark) == s <==> AllNew(s, seen, mark)
  {
    if s != [] {
      var m := mark(s[0]);
      if m in seen {
        UnseenKeepsAll(s[1..], seen, mark);
      } else {
        UnseenKeepsAll(s[1..], seen + {m}, mark);
        assert s == [s[0]] + s[1..];
        forall i, j | 0 <= i < j < |s| && AllNew(s[1..], seen + {m}, mark) ensures mark(s[i]) != mark(s[j]) {
          assert s[j] == s[1..][j - 1];
          if i > 0 { assert s[i] == s[1..][i - 1]; }
        }
        assert AllNew(s[1..], seen + {m}, mark) ==> AllNew(s, seen, mark) by {
          assert forall i :: 1 <= i < |s| ==> s[i] == s[1..][i - 1];
        }
        assert AllNew(s, seen, mark) ==> AllNew(s[1..], seen + {m}, mark);
      }
    }
  }

  /** `c` is `a` followed by items that are all new. */
  ghost predicate Continues<T(!new), K(!new)>(a: seq<T>, c: seq<T>, mark: T -> K) {
    a <= c && AllNew(c[|a|..], Marks(a, mark), mark)
  }

  lemma ExtendedAbsorbs<T(!new), K(!new)>(a: seq<T>, c: seq<T>, mark: T -> K)
    ensures Extended(a, c, mark) == c <==> Continues(a, c, mark)
  {
    hide AllNew, Unseen;
    var A := Marks(a, mark);
    if a <= c {
      var rest := c[|a|..];
      assert c == a + rest;
      UnseenSplit(a, rest, A, mark);
      UnseenMarks(a, A, mark);
      assert A + A == A;
      UnseenKeepsAll(rest, A, mark);
    }
  }

  // ---------------------------------------------------------------- the merge

  function Merged(base: Json, addition: Json): Json
    decreases addition
  {
    match (base, addition)
    case (Obj(bo, bf), Obj(ao, af)) =>
      Obj(Extended(bo, ao, Key),
          map k | k in bf.Keys + af.Keys ::
            if k !in af then bf[k] else if k !in bf then af[k] else Merged(bf[k], af[k]))
    case (List(b), List(a)) => List(Extended(b, a, StableJson))
    case (Bool(b), Bool(a)) => Bool(b || a)
    case _ => addition
  }

  /** The kinds of value that are merged instead of replaced. */
  predicate SameKind(a: Json, b: Json) {
    (a.Obj? && b.Obj?) || (a.List? && b.List?) || (a.Bool? && b.Bool?)
  }

  lemma {:induction false} MergedValid(base: Json, addition: Json)
    requires Valid(base) && Valid(addition)
    ensures Valid(Merged(base, addition))
    decreases addition
  {
    if base.Obj? && addition.Obj? {
      var r := Merged(base, addition);
      OrderOfMerged(base.order, addition.order);
      forall k | k in r.fields ensures Valid(r.fields[k]) {
        if k in base.fields && k in addition.fields {
          MergedValid(base.fields[k], addition.fields[k]);
        }
      }
    } else if base.List? && addition.List? {
      var u := Unseen(addition.items, Marks(base.items, StableJson), StableJson);
      UnseenAreItems(addition.items, Marks(base.items, StableJson), StableJson);
      assert forall i :: 0 <= i < |u| ==> u[i] in u;
    }
  }

  lemma {:induction false} UnseenAreItems<T, K>(s: seq<T>, seen: set<K>, mark: T -> K)
    ensures forall x :: x in Unseen(s, seen, mark) ==> x in s
  {
    if s != [] { UnseenAreItems(s[1..], if mark(s[0]) in seen then seen else seen + {mark(s[0])}, mark); }
  }

  lemma OrderOfMerged(a: seq<string>, b: seq<string>)
    requires Distinct(a) && Distinct(b)
    ensures Distinct(Extended(a, b, Key))
    ensures forall k :: k in Extended(a, b, Key) <==> k in a || k in b
  {
    var u := Unseen(b, Marks(a, Key), Key);
    UnseenTwice(b, Marks(a, Key), Marks(a, Key), Key);
    UnseenKeepsAll(u, Marks(a, Key), Key);
    UnseenMarks(b, Marks(a, Key), Key);
    MarksOfKeys(a);
    MarksOfKeys(b);
    MarksOfKeys(u);
  }

  lemma MarksOfKeys(a: seq<string>)
    ensures forall k :: k in Marks(a, Key) <==> k in a
  {
    assert forall i :: 0 <= i < |a| ==> Key(a[i]) == a[i];
    forall k | k in a ensures k in Marks(a, Key) {
      var i :| 0 <= i < |a| && a[i] == k;
      assert Key(a[i]) in Marks(a, Key);
    }
  }

  // ---------------------------------------------------------------- absorption

  lemma {:induction false} MergeSelf(x: Json)
    ensures Merged(x, x) == x
  {
    if x.Obj? {
      ExtendedTwice(x.order, x.order, Key);
      forall k | k in x.fields ensures Merged(x.fields[k], x.fields[k]) == x.fields[k] { MergeSelf(x.fields[k]); }
      assert Merged(x, x).fields == x.fields;
    } else if x.List? {
      ExtendedTwice(x.items, x.items, StableJson);
    }
  }

  /** Applying a layer a second time changes nothing. */
  lemma {:induction false} MergeTwice(a: Json, b: Json)
    ensures Merged(Merged(a, b), b) == Merged(a, b)
    decreases b
  {
    if !SameKind(a, b) {
      MergeSelf(b);
    } else if b.Obj? {
      ExtendedTwice(a.order, b.order, Key);
      forall k | k in b.fields
        ensures k in a.fields
           ==> Merged(Merged(a.fields[k], b.fields[k]), b.fields[k]) == Merged(a.fields[k], b.fields[k])
        ensures Merged(b.fields[k], b.fields[k]) == b.fields[k] {
        MergeSelf(b.fields[k]);
        if k in a.fields { MergeTwice(a.fields[k], b.fields[k]); }
      }
      assert Merged(Merged(a, b), b).fields == Merged(a, b).fields;
    } else if b.List? {
      ExtendedTwice(a.items, b.items, StableJson);
    }
  }

  /** `c` already holds everything `a` would contribute, in the order `a` gives it. */
  ghost predicate Absorbs(a: Json, c: Json)
    decreases c
  {
    if a.Obj? && c.Obj? then
      && Continues(a.order, c.order, Key)
      && a.fields.Keys <= c.fields.Keys
      && forall k :: k in a.fields && k in c.fields ==> Absorbs(a.fields[k], c.fields[k])
    else if a.List? && c.List? then Continues(a.items, c.items, StableJson)
    else a.Bool? && c.Bool? && a.b ==> c.b
  }

  lemma {:induction false} AbsorbsIffMergeIsAddition(a: Json, c: Json)
    ensures Merged(a, c) == c <==> Absorbs(a, c)
    decreases c
  {
    if a.Obj? && c.Obj? {
      ExtendedAbsorbs(a.order, c.order, Key);
      forall k | k in a.fields && k in c.fields
        ensures Merged(a.fields[k], c.fields[k]) == c.fields[k] <==> Absorbs(a.fields[k], c.fields[k]) {
        AbsorbsIffMergeIsAddition(a.fields[k], c.fields[k]);
      }
      var m := Merged(a, c).fields;
      assert a.fields.Keys <= c.fields.Keys && (forall k :: k in a.fields && k in c.fields ==> m[k] == c.fields[k])
        ==> m == c.fields;
      assert m == c.fields ==> a.fields.Keys <= c.fields.Keys by { assert m.Keys == a.fields.Keys + c.fields.Keys; }
    } else if a.List? && c.List? {
      ExtendedAbsorbs(a.items, c.items, StableJson);
    }
  }

  // ---------------------------------------------------------------- associativity

  /** At no path does the middle layer interrupt a merge of the outer two, unless the last
      layer absorbs the first there. A key missing from one of the layers interrupts nothing. */
  ghost predicate Harmonious(a: Json, b: Json, c: Json)
    decreases c
  {
    if SameKind(a, c) && !SameKind(a, b) then Absorbs(a, c)
    else if a.Obj? && b.Obj? && c.Obj? then
      forall k :: k in a.fields && k in b.fields && k in c.fields ==> Harmonious(a.fields[k], b.fields[k], c.fields[k])
    else true
  }

  /** The merge is associative, order of keys and items included, exactly on harmonious layers. */
  lemma {:induction false} AssociativeIffHarmonious(a: Json, b: Json, c: Json)
    ensures Merged(Merged(a, b), c) == Merged(a, Merged(b, c)) <==> Harmonious(a, b, c)
    decreases c
  {
    if SameKind(a, c) && !SameKind(a, b) {
      AbsorbsIffMergeIsAddition(a, c);
    } else if a.Obj? && b.Obj? && c.Obj? {
      ExtendedAssociative(a.order, b.order, c.order, Key);
      FieldsAssociative(a, b, c);
    } else if a.List? && b.List? && c.List? {
      ExtendedAssociative(a.items, b.items, c.items, StableJson);
    }
  }

  lemma {:induction false} FieldsAssociative(a: Json, b: Json, c: Json)
    requires a.Obj? && b.Obj? && c.Obj?
    ensures Merged(Merged(a, b), c).fields == Merged(a, Merged(b, c)).fields <==> Harmonious(a, b, c)
    decreases c, 0
  {
    hide Extended, Unseen;
    var left, right := Merged(Merged(a, b), c).fields, Merged(a, Merged(b, c)).fields;
    assert left.Keys == right.Keys == a.fields.Keys + b.fields.Keys + c.fields.Keys;
    forall k | k in left
      ensures left[k] == right[k]
         <==> (k in a.fields && k in b.fields && k in c.fields ==> Harmonious(a.fields[k], b.fields[k], c.fields[k]))
    {
      if k in a.fields && k in b.fields && k in c.fields {
        AssociativeIffHarmonious(a.fields[k], b.fields[k], c.fields[k]);
      }
    }
    assert (forall k :: k in left ==> left[k] == right[k]) ==> left == right;
  }

  /** Layers that give every shared path the same kind of value. */
  ghost predicate Compatible(a: Json, b: Json)
    decreases b
  {
    && (a.Obj? <==> b.Obj?) && (a.List? <==> b.List?) && (a.Bool? <==> b.Bool?)
    && (a.Obj? && b.Obj? ==> forall k :: k in a.fields && k in b.fields ==> Compatible(a.fields[k], b.fields[k]))
  }

  lemma {:induction false} CompatibleIsHarmonious(a: Json, b: Json, c: Json)
    requires Compatible(a, b)
    ensures Harmonious(a, b, c)
    decreases c
  {
    if a.Obj? && b.Obj? && c.Obj? {
      forall k | k in a.fields && k in b.fields && k in c.fields
        ensures Harmonious(a.fields[k], b.fields[k], c.fields[k]) {
        CompatibleIsHarmonious(a.fields[k], b.fields[k], c.fields[k]);
      }
    }
  }

  lemma {:induction false} CompatibleWithMerged(a: Json, b: Json, c: Json)
    requires Compatible(a, b) && Compatible(a, c) && Compatible(b, c)
    ensures Compatible(a, Merged(b, c)) && Compatible(Merged(b, c), a)
    decreases c
  {
    CompatibleSymmetric(a, b);
    CompatibleSymmetric(a, c);
    if c.Obj? {
      forall k | k in a.fields && k in b.fields && k in c.fields
        ensures Compatible(a.fields[k], Merged(b.fields[k], c.fields[k]))
                && Compatible(Merged(b.fields[k], c.fields[k]), a.fields[k]) {
        CompatibleWithMerged(a.fields[k], b.fields[k], c.fields[k]);
      }
    }
  }

  lemma {:induction false} CompatibleSymmetric(a: Json, b: Json)
    requires Compatible(a, b)
    ensures Compatible(b, a)
    decreases b
  {
    if b.Obj? {
      forall k | k in a.fields && k in b.fields ensures Compatible(b.fields[k], a.fields[k]) {
        CompatibleSymmetric(a.fields[k], b.fields[k]);
      }
    }
  }

  // ---------------------------------------------------------------- the evaluators' own loops

  function FieldOf(base: Json, addition: Json, k: string): Json
    requires base.Obj? && addition.Obj? && (k in base.fields || k in addition.fields)
  {
    if k !in addition.fields then base.fields[k]
    else if k !in base.fields then addition.fields[k]
    else Merged(base.fields[k], addition.fields[k])
  }

  lemma ExtendedByOne<T, K>(base: seq<T>, front: seq<T>, x: T, mark: T -> K)
    ensures Extended(base, front + [x], mark)
         == Extended(base, front, mark) + if mark(x) in Marks(Extended(base, front, mark), mark) then [] else [x]
  {
    UnseenSplit(front, [x], Marks(base, mark), mark);
    ExtendedMarks(base, front, mark);
  }

  /** The recursive merge, which fills copies of the dictionary or list in place. */
  method MergePolicyValue(base: Json, addition: Json) returns (result: Json)
    requires Valid(base) && Valid(addition)
    ensures result == Merged(base, addition)
    decreases addition, 1
  {
    if base.Obj? && addition.Obj? {
      result := MergeFields(base, addition);
    } else if base.List? && addition.List? {
      var items := MergeItems(base.items, addition.items);
      result := List(items);
    } else if base.Bool? && addition.Bool? {
      result := Bool(base.b || addition.b);
    } else {
      result := addition;
    }
  }

  method MergeFields(base: Json, addition: Json) returns (result: Json)
    requires base.Obj? && addition.Obj? && Valid(base) && Valid(addition)
    ensures result == Merged(base, addition)
    decreases addition, 0
  {
    hide Extended, Merged;
    var order, fields := base.order, base.fields;
    var i := 0;
    NothingToAdd(base.order, addition.order, Key);
    while i < |addition.order|
      invariant 0 <= i <= |addition.order|
      invariant order == Extended(base.order, addition.order[..i], Key)
      invariant fields.Keys == base.fields.Keys + Front(addition.order, i)
      invariant forall k :: k in fields
                  ==> fields[k] == if k in Front(addition.order, i) then FieldOf(base, addition, k) else base.fields[k]
    {
      var key := addition.order[i];
      KeyIsNew(base, addition, i);
      var value := addition.fields[key];
      if key in fields {
        value := MergePolicyValue(fields[key], value);
      } else {
        order := order + [key];
      }
      fields := fields[key := value];
      i := i + 1;
    }
    AllKeysMerged(base, addition, fields);
    assert addition.order[..i] == addition.order;
    result := Obj(order, fields);
  }

  method MergeItems(base: seq<Json>, addition: seq<Json>) returns (items: seq<Json>)
    ensures items == Extended(base, addition, StableJson)
  {
    hide Extended;
    items := base;
    var seen := Marks(base, StableJson);
    var i := 0;
    NothingToAdd(base, addition, StableJson);
    while i < |addition|
      invariant 0 <= i <= |addition|
      invariant items == Extended(base, addition[..i], StableJson)
      invariant seen == Marks(items, StableJson)
    {
      var item := addition[i];
      assert addition[..i + 1] == addition[..i] + [item];
      ExtendedByOne(base, addition[..i], item, StableJson);
      var marker := StableJson(item);
      if marker !in seen {
        MarksSplit(items, [item], StableJson);
        MarkOfOne(item, StableJson);
        items := items + [item];
        seen := seen + {marker};
      }
      i := i + 1;
    }
    assert addition[..i] == addition;
  }

  lemma MarkOfOne<T, K>(x: T, mark: T -> K)
    ensures Marks([x], mark) == {mark(x)}
  {
    assert [x][0] == x;
  }

  lemma NothingToAdd<T, K>(base: seq<T>, addition: seq<T>, mark: T -> K)
    ensures Extended(base, addition[..0], mark) == base
  {
  }

  /** The first `i` keys. */
  ghost function Front(order: seq<string>, i: nat): set<string>
    requires i <= |order|
  {
    set j | 0 <= j < i :: order[j]
  }

  lemma AllKeysMerged(base: Json, addition: Json, fields: map<string, Json>)
    requires base.Obj? && addition.Obj? && Valid(base) && Valid(addition)
    requires fields.Keys == base.fields.Keys + Front(addition.order, |addition.order|)
    requires forall k :: k in fields
               ==> fields[k] == if k in Front(addition.order, |addition.order|)
                                then FieldOf(base, addition, k) else base.fields[k]
    ensures Merged(base, addition) == Obj(Extended(base.order, addition.order, Key), fields)
  {
    hide Extended, Valid;
    assert forall k :: k in Front(addition.order, |addition.order|) <==> k in addition.fields by {
      KeysAreOrdered(addition);
    }
    assert fields == Merged(base, addition).fields;
  }

  lemma KeysAreOrdered(v: Json)
    requires v.Obj? && Valid(v)
    ensures forall k :: k in Front(v.order, |v.order|) <==> k in v.fields
  {
    forall k | k in v.fields ensures k in Front(v.order, |v.order|) {
      assert k in v.order;
      var j :| 0 <= j < |v.order| && v.order[j] == k;
    }
  }

  lemma KeyIsNew(base: Json, addition: Json, i: nat)
    requires base.Obj? && addition.Obj? && Valid(base) && Valid(addition)
    requires i < |addition.order|
    ensures var key := addition.order[i];
            && key !in Front(addition.order, i) && key in addition.fields
            && Front(addition.order, i + 1) == Front(addition.order, i) + {key}
            && Extended(base.order, addition.order[..i + 1], Key)
               == Extended(base.order, addition.order[..i], Key) + if key in base.fields then [] else [key]
  {
    hide Extended;
    var front, key := addition.order[..i], addition.order[i];
    assert addition.order[..i + 1] == front + [key];
    assert forall j :: 0 <= j < i ==> addition.order[j] != key;
    ExtendedByOne(base.order, front, key, Key);
    ExtendedMarks(base.order, front, Key);
    MarksOfKeys(base.order);
    MarksOfKeys(front);
    assert key in addition.order;
  }
}
