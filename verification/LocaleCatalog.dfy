// Locale catalogs: the flattened table the runtime resolves from, against the dotted paths the
// key checker compares.

module LocaleCatalog {
  import opened Options
  import opened PolicyMerge

  function Under(prefix: string, key: string): string {
    if prefix == "" then key else prefix + "." + key
  }

  /** The flat table of a catalog. */
  function Flatten(v: Json, prefix: string): map<string, string>
    decreases v, if v.Obj? then |v.order| + 1 else 0
  {
    if v.Obj? then FlattenFirst(v, |v.order|, prefix) else map[]
  }

  /** The first `n` entries, a later one winning. */
  function FlattenFirst(v: Json, n: nat, prefix: string): map<string, string>
    requires v.Obj? && n <= |v.order|
    decreases v, n
  {
    if n == 0 then map[]
    else
      var k := v.order[n - 1];
      FlattenFirst(v, n - 1, prefix)
      + if k !in v.fields then map[]
        else match v.fields[k]
          case Obj(_, _) => Flatten(v.fields[k], Under(prefix, k))
          case Str(s) => map[Under(prefix, k) := s]
          case _ => map[]
  }

  /** The checker's dotted paths: every leaf, whatever its type. */
  function DotPaths(v: Json, prefix: string): set<string>
    decreases v, 0
  {
    if v.Obj? then set k, p | k in v.fields && p in LeafPaths(v.fields[k], Under(prefix, k)) :: p else {}
  }

  function LeafPaths(v: Json, full: string): set<string>
    decreases v, 1
  {
    if v.Obj? then DotPaths(v, full) else {full}
  }

  // ---------------------------------------------------------------- walking a path

  /** What lies at the end of a path of keys. */
  function Walk(v: Json, path: seq<string>): Option<Json>
    decreases |path|
  {
    if path == [] then Some(v)
    else if v.Obj? && path[0] in v.fields then Walk(v.fields[path[0]], path[1..])
    else None
  }

  predicate GoodKey(k: string) { k != "" && '.' !in k }

  ghost predicate GoodKeys(v: Json) {
    v.Obj? ==> forall k :: k in v.fields ==> GoodKey(k) && GoodKeys(v.fields[k])
  }

  ghost predicate GoodPath(path: seq<string>) {
    path != [] && forall i :: 0 <= i < |path| ==> GoodKey(path[i])
  }

  function Dotted(path: seq<string>): string
    requires path != []
  {
    if |path| == 1 then path[0] else path[0] + "." + Dotted(path[1..])
  }

  /** Splitting at the dots. */
  function Split(key: string): (r: seq<string>)
    ensures r != []
  {
    if key == "" then [""]
    else
      var rest := Split(key[1..]);
      if key[0] == '.' then [""] + rest else [[key[0]] + rest[0]] + rest[1..]
  }

  lemma {:induction false} SplitFirst(k: string, rest: string)
    requires '.' !in k
    ensures Split(k) == [k] && Split(k + "." + rest) == [k] + Split(rest)
  {
    if k == "" {
      assert ("" + "." + rest)[1..] == rest;
    } else {
      assert (k + "." + rest)[1..] == k[1..] + "." + rest && (k + "." + rest)[0] == k[0];
      SplitFirst(k[1..], rest);
      assert k == [k[0]] + k[1..];
    }
  }

  lemma {:induction false} SplitDotted(path: seq<string>)
    requires GoodPath(path)
    ensures Split(Dotted(path)) == path && Dotted(path) != ""
  {
    if |path| == 1 {
      SplitFirst(path[0], "");
      assert path == [path[0]];
    } else {
      SplitFirst(path[0], Dotted(path[1..]));
      SplitDotted(path[1..]);
      assert path == [path[0]] + path[1..];
    }
  }

  lemma {:induction false} DottedSplit(key: string)
    ensures Dotted(Split(key)) == key
  {
    if key != "" {
      var rest := Split(key[1..]);
      DottedSplit(key[1..]);
      if |rest| > 1 { assert Split(key)[1..] == if key[0] == '.' then rest else rest[1..]; }
      assert key == [key[0]] + key[1..];
    }
  }

  lemma UnderInjective(prefix: string, a: string, b: string)
    requires Under(prefix, a) == Under(prefix, b)
    ensures a == b
  {
    if prefix != "" {
      assert a == Under(prefix, a)[|prefix| + 1..] && b == Under(prefix, b)[|prefix| + 1..];
    }
  }

  lemma UnderDotted(prefix: string, k: string, path: seq<string>)
    requires k != "" && path != []
    ensures Under(Under(prefix, k), Dotted(path)) == Under(prefix, Dotted([k] + path))
  {
    assert ([k] + path)[1..] == path;
    if prefix != "" { assert (prefix + "." + k) + "." + Dotted(path) == prefix + "." + (k + "." + Dotted(path)); }
  }

  /** The path leads to a leaf; to the string `s` if that is asked for. */
  ghost predicate LeadsTo(v: Json, path: seq<string>, s: Option<string>) {
    path != [] && match Walk(v, path)
      case None => false
      case Some(leaf) => if s.Some? then leaf == Str(s.value) else !leaf.Obj?
  }

  lemma {:induction false} LeadsGood(v: Json, path: seq<string>, s: Option<string>)
    requires GoodKeys(v) && LeadsTo(v, path, s)
    ensures GoodPath(path) && v.Obj? && path[0] in v.fields
    decreases |path|
  {
    if |path| > 1 {
      LeadsGood(v.fields[path[0]], path[1..], s);
      assert path == [path[0]] + path[1..];
    }
  }

  /** One step of a path. */
  lemma LeadsStep(v: Json, k: string, rest: seq<string>, s: Option<string>)
    requires v.Obj? && k in v.fields && rest != []
    ensures LeadsTo(v, [k] + rest, s) <==> LeadsTo(v.fields[k], rest, s)
  {
    assert ([k] + rest)[1..] == rest;
  }

  lemma LeadsOne(v: Json, k: string, s: Option<string>)
    requires v.Obj? && k in v.fields
    ensures LeadsTo(v, [k], s) <==> if s.Some? then v.fields[k] == Str(s.value) else !v.fields[k].Obj?
  {
    assert [k][1..] == [];
    assert Walk(v, [k]) == Walk(v.fields[k], []);
  }

  lemma SamePath(prefix: string, p: seq<string>, q: seq<string>)
    requires GoodPath(p) && GoodPath(q) && Under(prefix, Dotted(p)) == Under(prefix, Dotted(q))
    ensures p == q
  {
    UnderInjective(prefix, Dotted(p), Dotted(q));
    SplitDotted(p);
    SplitDotted(q);
  }

  // ---------------------------------------------------------------- the flat table

  function Entry(v: Json, k: string, prefix: string): map<string, string>
    requires v.Obj?
  {
    if k !in v.fields then map[]
    else match v.fields[k]
      case Obj(_, _) => Flatten(v.fields[k], Under(prefix, k))
      case Str(s) => map[Under(prefix, k) := s]
      case _ => map[]
  }

  /** A key of the table leads to its value. */
  lemma {:induction false} FlattenSound(v: Json, n: nat, prefix: string, key: string) returns (path: seq<string>)
    requires v.Obj? && n <= |v.order| && GoodKeys(v) && key in FlattenFirst(v, n, prefix)
    ensures LeadsTo(v, path, Some(FlattenFirst(v, n, prefix)[key])) && key == Under(prefix, Dotted(path))
    ensures path[0] in v.order[..n]
    decreases v, n
  {
    var k := v.order[n - 1];
    if key in Entry(v, k, prefix) {
      path := EntrySound(v, k, prefix, key);
    } else {
      path := FlattenSound(v, n - 1, prefix, key);
      assert v.order[..n] == v.order[..n - 1] + [k];
    }
  }

  lemma {:induction false} EntrySound(v: Json, k: string, prefix: string, key: string) returns (path: seq<string>)
    requires v.Obj? && GoodKeys(v) && key in Entry(v, k, prefix)
    ensures LeadsTo(v, path, Some(Entry(v, k, prefix)[key])) && key == Under(prefix, Dotted(path)) && path[0] == k
    decreases v, 0
  {
    var w := v.fields[k];
    if w.Obj? {
      var rest := FlattenSound(w, |w.order|, Under(prefix, k), key);
      path := [k] + rest;
      LeadsStep(v, k, rest, Some(Entry(v, k, prefix)[key]));
      UnderDotted(prefix, k, rest);
    } else {
      path := [k];
      LeadsOne(v, k, Some(Entry(v, k, prefix)[key]));
    }
  }

  /** A path to a string is a key of the table, with that string. */
  lemma {:induction false} FlattenComplete(v: Json, n: nat, prefix: string, path: seq<string>, s: string)
    requires v.Obj? && n <= |v.order| && Valid(v) && GoodKeys(v)
    requires LeadsTo(v, path, Some(s)) && path[0] in v.order[..n]
    ensures var key := Under(prefix, Dotted(path));
            key in FlattenFirst(v, n, prefix) && FlattenFirst(v, n, prefix)[key] == s
    decreases v, n
  {
    var k, key := v.order[n - 1], Under(prefix, Dotted(path));
    if path[0] == k {
      EntryComplete(v, k, prefix, path, s);
    } else {
      FlattenComplete(v, n - 1, prefix, path, s);
      if key in Entry(v, k, prefix) {
        var other := EntrySound(v, k, prefix, key);
        LeadsGood(v, path, Some(s));
        LeadsGood(v, other, Some(Entry(v, k, prefix)[key]));
        SamePath(prefix, path, other);
      }
    }
  }

  lemma {:induction false} EntryComplete(v: Json, k: string, prefix: string, path: seq<string>, s: string)
    requires v.Obj? && Valid(v) && GoodKeys(v) && LeadsTo(v, path, Some(s)) && path[0] == k
    ensures var key := Under(prefix, Dotted(path)); key in Entry(v, k, prefix) && Entry(v, k, prefix)[key] == s
    decreases v, 0
  {
    var w, rest := v.fields[k], path[1..];
    if rest != [] {
      assert path == [k] + rest;
      LeadsGood(w, rest, Some(s));
      assert rest[0] in w.order;
      assert w.order[..|w.order|] == w.order;
      FlattenComplete(w, |w.order|, Under(prefix, k), rest, s);
      UnderDotted(prefix, k, rest);
    } else {
      assert path == [k];
      LeadsOne(v, k, Some(s));
    }
  }

  /** The table answers a dotted key with `s` exactly when walking the key's segments reaches it. */
  lemma FlattenIffWalk(v: Json, key: string, s: string)
    requires v.Obj? && Valid(v) && GoodKeys(v)
    ensures key in Flatten(v, "") && Flatten(v, "")[key] == s <==> Walk(v, Split(key)) == Some(Str(s))
  {
    var n := |v.order|;
    if key in Flatten(v, "") && Flatten(v, "")[key] == s {
      var path := FlattenSound(v, n, "", key);
      LeadsGood(v, path, Some(s));
      SplitDotted(path);
    }
    if Walk(v, Split(key)) == Some(Str(s)) {
      var path := Split(key);
      DottedSplit(key);
      LeadsGood(v, path, Some(s));
      assert path[0] in v.order && v.order[..n] == v.order;
      FlattenComplete(v, n, "", path, s);
    }
  }

  // ---------------------------------------------------------------- the checker's paths

  lemma {:induction false} PathSound(v: Json, prefix: string, key: string) returns (path: seq<string>)
    requires GoodKeys(v) && key in DotPaths(v, prefix)
    ensures LeadsTo(v, path, None) && key == Under(prefix, Dotted(path))
    decreases v
  {
    var k :| k in v.fields && key in LeafPaths(v.fields[k], Under(prefix, k));
    var w := v.fields[k];
    if w.Obj? {
      var rest := PathSound(w, Under(prefix, k), key);
      path := [k] + rest;
      LeadsStep(v, k, rest, None);
      UnderDotted(prefix, k, rest);
    } else {
      path := [k];
      LeadsOne(v, k, None);
    }
  }

  lemma {:induction false} PathComplete(v: Json, prefix: string, path: seq<string>)
    requires GoodKeys(v) && LeadsTo(v, path, None)
    ensures Under(prefix, Dotted(path)) in DotPaths(v, prefix)
    decreases v
  {
    LeadsGood(v, path, None);
    var k, rest := path[0], path[1..];
    assert path == [k] + rest;
    var w := v.fields[k];
    if rest != [] {
      LeadsStep(v, k, rest, None);
      LeadsGood(w, rest, None);
      PathComplete(w, Under(prefix, k), rest);
      UnderDotted(prefix, k, rest);
      assert Under(prefix, Dotted(path)) in LeafPaths(w, Under(prefix, k));
    } else {
      assert path == [k];
      LeadsOne(v, k, None);
      assert Under(prefix, k) in LeafPaths(w, Under(prefix, k));
    }
  }

  /** The checker knows a dotted key exactly when walking the key's segments ends at a leaf. */
  lemma PathsIffWalk(v: Json, key: string)
    requires v.Obj? && GoodKeys(v)
    ensures key in DotPaths(v, "") <==> Walk(v, Split(key)).Some? && !Walk(v, Split(key)).value.Obj?
  {
    hide DotPaths;
    if key in DotPaths(v, "") {
      var path := PathSound(v, "", key);
      LeadsGood(v, path, None);
      SplitDotted(path);
    }
    if LeadsTo(v, Split(key), None) {
      DottedSplit(key);
      PathComplete(v, "", Split(key));
    }
  }

  /** Every leaf is a string. */
  ghost predicate StringLeaves(v: Json) {
    forall path :: LeadsTo(v, path, None) ==> Walk(v, path).value.Str?
  }

  /** The checker compares exactly the keys the runtime will know, if and only if every leaf is
      a string. */
  lemma SameKeysIffStringLeaves(v: Json)
    requires v.Obj? && Valid(v) && GoodKeys(v)
    ensures Flatten(v, "").Keys <= DotPaths(v, "")
    ensures Flatten(v, "").Keys == DotPaths(v, "") <==> StringLeaves(v)
  {
    hide DotPaths;
    var table, n := Flatten(v, ""), |v.order|;
    forall key | key in table ensures key in DotPaths(v, "") {
      var path := FlattenSound(v, n, "", key);
      PathComplete(v, "", path);
    }
    if StringLeaves(v) {
      forall key | key in DotPaths(v, "") ensures key in table {
        var path := PathSound(v, "", key);
        LeadsGood(v, path, None);
        assert path[0] in v.order && v.order[..n] == v.order;
        FlattenComplete(v, n, "", path, Walk(v, path).value.s);
      }
    }
    if table.Keys == DotPaths(v, "") {
      forall path | LeadsTo(v, path, None) ensures Walk(v, path).value.Str? {
        PathComplete(v, "", path);
        LeadsGood(v, path, None);
        var other := FlattenSound(v, n, "", Under("", Dotted(path)));
        LeadsGood(v, other, Some(table[Under("", Dotted(path))]));
        SamePath("", path, other);
      }
    }
  }
}
