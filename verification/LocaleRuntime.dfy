// The key checker's consistency phase and the runtime resolver it vouches for.

module LocaleRuntime {
  import opened Options
  import opened PolicyMerge
  import opened LocaleCatalog

  const FALLBACK: string := "en-US"

  /** The catalogs on disk, by locale. */
  type Catalogs = map<string, Json>

  ghost predicate GoodCatalogs(files: Catalogs) {
    && FALLBACK in files
    && forall l :: l in files ==> files[l].Obj? && Valid(files[l]) && GoodKeys(files[l]) && StringLeaves(files[l])
  }

  /** Every locale has the reference's keys. */
  ghost predicate Consistent(files: Catalogs)
    requires FALLBACK in files
  {
    forall l :: l in files ==> DotPaths(files[l], "") == DotPaths(files[FALLBACK], "")
  }

  /** The locale lacks a key of the reference, or has one it lacks. */
  ghost predicate Lacks(files: Catalogs, l: string) {
    FALLBACK in files && l in files
    && exists key :: key in DotPaths(files[FALLBACK], "") && key !in DotPaths(files[l], "")
  }

  ghost predicate Exceeds(files: Catalogs, l: string) {
    FALLBACK in files && l in files
    && exists key :: key !in DotPaths(files[FALLBACK], "") && key in DotPaths(files[l], "")
  }

  ghost function Which(locales: seq<string>, p: string -> bool): set<int> {
    set i | 0 <= i < |locales| && p(locales[i])
  }

  lemma OneMoreLocale(locales: seq<string>, l: string, p: string -> bool)
    ensures |Which(locales + [l], p)| == |Which(locales, p)| + if p(l) then 1 else 0
  {
    assert Which(locales + [l], p) == Which(locales, p) + if p(l) then {|locales|} else {};
  }

  lemma DifferencesTell(files: Catalogs, l: string)
    requires FALLBACK in files && l in files
    ensures var reference, other := DotPaths(files[FALLBACK], ""), DotPaths(files[l], "");
            (reference - other != {} <==> Lacks(files, l)) && (other - reference != {} <==> Exceeds(files, l))
  {
    hide DotPaths;
    var reference, other := DotPaths(files[FALLBACK], ""), DotPaths(files[l], "");
    if key :| key in reference && key !in other { assert key in reference - other; }
    if key :| key in other && key !in reference { assert key in other - reference; }
  }

  /** The consistency phase, over the locales in any order: how many failures it prints. */
  method CheckKeys(files: Catalogs, locales: seq<string>) returns (errors: nat)
    requires FALLBACK in files && forall l :: l in files <==> l in locales
    ensures errors == 0 <==> Consistent(files)
    ensures errors == |Which(locales, l => Lacks(files, l))| + |Which(locales, l => Exceeds(files, l))|
  {
    hide DotPaths, Lacks, Exceeds, Which;
    ghost var lacks, exceeds := l => Lacks(files, l), l => Exceeds(files, l);
    var reference := DotPaths(files[FALLBACK], "");
    errors := 0;
    NoLocales(lacks);
    NoLocales(exceeds);
    assert locales[..0] == [];
    for i := 0 to |locales|
      invariant errors == 0 <==> forall l :: l in locales[..i] ==> DotPaths(files[l], "") == reference
      invariant errors == |Which(locales[..i], lacks)| + |Which(locales[..i], exceeds)|
    {
      var l := locales[i];
      assert l in locales;
      assert locales[..i + 1] == locales[..i] + [l];
      OneMoreLocale(locales[..i], l, lacks);
      OneMoreLocale(locales[..i], l, exceeds);
      DifferencesTell(files, l);
      if l == FALLBACK {
        assert reference - reference == {};
        continue;
      }
      var other := DotPaths(files[l], "");
      var missing, extra := reference - other, other - reference;
      assert missing == {} && extra == {} <==> other == reference by { BothEmpty(reference, other); }
      if missing != {} { errors := errors + 1; }
      if extra != {} { errors := errors + 1; }
    }
    assert locales[..|locales|] == locales;
  }

  lemma NoLocales(p: string -> bool)
    ensures Which([], p) == {}
  {
  }

  lemma BothEmpty(a: set<string>, b: set<string>)
    ensures a - b == {} && b - a == {} <==> a == b
  {
    if a - b == {} && b - a == {} {
      forall x ensures x in a <==> x in b { assert x !in a - b && x !in b - a; }
    }
  }

  /** The table of a catalog file; an unknown locale has an empty one. */
  function FileTable(files: Catalogs, locale: string): map<string, string> {
    if locale in files then Flatten(files[locale], "") else map[]
  }

  /** What the resolver answers from a set of tables. */
  function Answer(table: map<string, string>, fallback: map<string, string>, key: string): string {
    if key in table then table[key] else if key in fallback then fallback[key] else key
  }

  datatype Registration = Registration(locale: string, data: Json)

  /** A locale's table after registrations: flattened on top, in order. */
  function TableAfter(files: Catalogs, regs: seq<Registration>, locale: string): map<string, string> {
    if regs == [] then FileTable(files, locale)
    else
      var before, last := TableAfter(files, regs[..|regs| - 1], locale), regs[|regs| - 1];
      if last.locale == locale then before + Flatten(last.data, "") else before
  }

  lemma OneMore(files: Catalogs, regs: seq<Registration>, r: Registration, l: string)
    ensures TableAfter(files, regs + [r], l)
         == if r.locale == l then TableAfter(files, regs, l) + Flatten(r.data, "") else TableAfter(files, regs, l)
  {
    hide Flatten, FileTable;
    assert (regs + [r])[..|regs|] == regs;
  }

  /** Registering never takes a key away, and changes no key it does not mention. */
  lemma {:induction false} RegistrationsKeepKeys(files: Catalogs, regs: seq<Registration>, locale: string, key: string)
    requires key in FileTable(files, locale)
    ensures key in TableAfter(files, regs, locale)
    ensures (forall i :: 0 <= i < |regs| && regs[i].locale == locale ==> key !in Flatten(regs[i].data, ""))
         ==> TableAfter(files, regs, locale)[key] == FileTable(files, locale)[key]
  {
    if regs != [] {
      var front := regs[..|regs| - 1];
      RegistrationsKeepKeys(files, front, locale, key);
      assert forall i :: 0 <= i < |front| ==> front[i] == regs[i];
    }
  }

  /** A locale's table has the keys of its file and of its registrations, and the last registration
      that gives a key decides what it says. */
  lemma {:induction false} LastRegistrationWins(
      files: Catalogs, regs: seq<Registration>, locale: string, key: string)
    ensures key in TableAfter(files, regs, locale) <==>
      || (locale in files && key in Flatten(files[locale], ""))
      || exists i :: 0 <= i < |regs| && Gives(regs[i], locale, key)
    ensures forall i :: 0 <= i < |regs| && Gives(regs[i], locale, key)
                        && (forall j :: i < j < |regs| ==> !Gives(regs[j], locale, key))
              ==> TableAfter(files, regs, locale)[key] == Flatten(regs[i].data, "")[key]
  {
    hide Flatten;
    if regs != [] {
      var n := |regs| - 1;
      LastRegistrationWins(files, regs[..n], locale, key);
      assert forall i :: 0 <= i < n ==> regs[..n][i] == regs[i];
    }
  }

  predicate Gives(r: Registration, locale: string, key: string) {
    r.locale == locale && key in Flatten(r.data, "")
  }

  /** What the checker's pass is worth: after any registrations, every reference key is answered
      from the table of the requested locale itself, and with the string its own file holds
      there unless a registration for that locale says otherwise. */
  lemma {:induction false} PassMeansAnswered(files: Catalogs, regs: seq<Registration>, locale: string, key: string)
    requires GoodCatalogs(files) && Consistent(files) && locale in files && key in DotPaths(files[FALLBACK], "")
    ensures var table := TableAfter(files, regs, locale);
            && key in table && Answer(table, TableAfter(files, regs, FALLBACK), key) == table[key]
            && ((forall i :: 0 <= i < |regs| && regs[i].locale == locale ==> key !in Flatten(regs[i].data, ""))
                ==> Walk(files[locale], Split(key)) == Some(Str(table[key])))
  {
    hide DotPaths, Flatten;
    SameKeysIffStringLeaves(files[locale]);
    RegistrationsKeepKeys(files, regs, locale, key);
    FlattenIffWalk(files[locale], key, FileTable(files, locale)[key]);
  }

  /** The converse: a key the checker reports as missing is not in the locale's own table. */
  lemma FailMeansFallback(files: Catalogs, locale: string, key: string)
    requires GoodCatalogs(files) && locale in files
    requires key in DotPaths(files[FALLBACK], "") && key !in DotPaths(files[locale], "")
    ensures key !in FileTable(files, locale) && key in FileTable(files, FALLBACK)
    ensures Answer(FileTable(files, locale), FileTable(files, FALLBACK), key) == FileTable(files, FALLBACK)[key]
  {
    hide DotPaths, Flatten;
    SameKeysIffStringLeaves(files[locale]);
    SameKeysIffStringLeaves(files[FALLBACK]);
  }

  /** The runtime's cache of loaded tables. `registered` recalls what was registered so far. */
  class Translator {
    const files: Catalogs
    var loaded: map<string, map<string, string>>
    ghost var registered: seq<Registration>

    constructor (files: Catalogs)
      ensures this.files == files && Valid() && registered == []
    {
      this.files, loaded, registered := files, map[], [];
    }

    /** A loaded table is the file's with the registrations on top; one that is not loaded yet
        has no registrations. */
    ghost predicate Valid()
      reads this
    {
      && (forall l :: l in loaded ==> loaded[l] == TableAfter(files, registered, l))
      && (forall l :: l !in loaded ==> TableAfter(files, registered, l) == FileTable(files, l))
    }

    method Load(locale: string) returns (table: map<string, string>)
      requires Valid()
      modifies this
      ensures Valid() && registered == old(registered)
      ensures table == TableAfter(files, registered, locale) && locale in loaded && loaded[locale] == table
      ensures forall l :: l in old(loaded) ==> l in loaded && loaded[l] == old(loaded)[l]
    {
      hide Flatten;
      if locale !in loaded {
        loaded := loaded[locale := FileTable(files, locale)];
      }
      table := loaded[locale];
    }

    method Resolve(key: string, locale: string) returns (text: string)
      requires Valid()
      modifies this
      ensures Valid() && registered == old(registered)
      ensures text == Answer(TableAfter(files, registered, locale), TableAfter(files, registered, FALLBACK), key)
      ensures var own, fallback := TableAfter(files, registered, locale), TableAfter(files, registered, "en-US");
              && (key in own ==> text == own[key])
              && (key !in own && key in fallback ==> text == fallback[key])
              && (key !in own && key !in fallback ==> text == key)
    {
      var table := Load(locale);
      if key in table { return table[key]; }
      if locale != FALLBACK {
        var fallback := Load(FALLBACK);
        if key in fallback { return fallback[key]; }
      }
      return key;
    }

    method RegisterNamespace(locale: string, data: Json)
      requires Valid()
      modifies this
      ensures Valid() && registered == old(registered) + [Registration(locale, data)]
    {
      hide Flatten;
      var existing := Load(locale);
      ghost var next := registered + [Registration(locale, data)];
      forall l
        ensures l == locale ==> TableAfter(files, next, l) == TableAfter(files, registered, l) + Flatten(data, "")
        ensures l != locale ==> TableAfter(files, next, l) == TableAfter(files, registered, l) {
        OneMore(files, registered, Registration(locale, data), l);
      }
      hide TableAfter;
      loaded := loaded[locale := existing + Flatten(data, "")];
      registered := registered + [Registration(locale, data)];
    }
  }
}
