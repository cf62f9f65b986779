/**
 * The project classifier: a first-match-wins chain of tests over the names
 * of a project directory's immediate children and, for JavaScript projects,
 * over the dependency names declared in its `package.json`.
 */
module Classifier {
  import opened Types
  import opened Text
  import opened Patterns

  /**
   * The parsed `package.json`: the key lists of its `dependencies` and
   * `devDependencies` objects (an absent object is an empty list).
   */
  datatype Manifest = Manifest(dependencies: seq<string>, devDependencies: seq<string>)

  /** Every label the classifier can return. */
  const Labels: set<string> := {
    "rust", "dart", "applescript", "android", "nuxt", "vue", "vscode",
    "react_ts", "react", "hexo", "typescript", "javascript", "unknown"
  }

  /** Every file-name pattern the classifier tests. */
  const AllPatterns: seq<string> := [
    "cargo.toml", "pubspec.yaml", ".*.xcodeproj", "app", "gradle", "package.json",
    "nuxt.config.js", "vue.config.js", ".vscodeignore", "tsconfig.json"
  ]

  /** The number of children whose name matches one of `fileNames`. */
  function CountMatching(children: seq<ChildInfo>, fileNames: seq<string>): (n: nat)
    ensures n <= |children|
  {
    if children == [] then 0
    else (if MatchesAny(fileNames, children[0].name) then 1 else 0) + CountMatching(children[1..], fileNames)
  }

  /**
   * `findFileFromProject`: as many children match the alternation of
   * `fileNames` as there are names (children are counted, not names).
   */
  predicate FindFileFromProject(children: seq<ChildInfo>, fileNames: seq<string>)
  {
    CountMatching(children, fileNames) == |fileNames|
  }

  /** The number of dependency names matching one of `names`. */
  function CountDepends(deps: seq<string>, names: seq<string>): (n: nat)
    ensures n <= |deps|
  {
    if deps == [] then 0
    else (if MatchesAny(names, deps[0]) then 1 else 0) + CountDepends(deps[1..], names)
  }

  /** `findDependFromPackage`: at least as many dependencies match as there are names. */
  predicate FindDependFromPackage(deps: seq<string>, names: seq<string>)
  {
    CountDepends(deps, names) >= |names|
  }

  /** The first child whose name is exactly `name` (the source's `find` with `===`). */
  function FirstNamed(children: seq<ChildInfo>, name: string): (r: Option<ChildInfo>)
    ensures r.None? <==> forall i :: 0 <= i < |children| ==> children[i].name != name
    ensures r.Some? ==> exists i :: 0 <= i < |children| && children[i] == r.value && r.value.name == name &&
                          forall j :: 0 <= j < i ==> children[j].name != name
  {
    if children == [] then None
    else if children[0].name == name then Some(children[0])
    else
      var r := FirstNamed(children[1..], name);
      assert r.Some? ==> exists i :: 0 <= i < |children| && children[i] == r.value && r.value.name == name &&
                          forall j :: 0 <= j < i ==> children[j].name != name by {
        if r.Some? {
          var i :| 0 <= i < |children[1..]| && children[1..][i] == r.value && r.value.name == name &&
                   forall j :: 0 <= j < i ==> children[1..][j].name != name;
          assert children[i + 1] == r.value;
          assert forall j :: 1 <= j < i + 1 ==> children[j].name == children[1..][j - 1].name;
        }
      }
      r
  }

  /** The keys of `b` that are not keys of `a`, in order. */
  function KeysNotIn(b: seq<string>, a: seq<string>): (r: seq<string>)
    ensures forall k :: k in r <==> k in b && k !in a
  {
    if b == [] then []
    else (if b[0] in a then [] else [b[0]]) + KeysNotIn(b[1..], a)
  }

  /** `Object.keys({ ...dependencies, ...devDependencies })`. */
  function DependKeys(m: Manifest): seq<string>
  {
    m.dependencies + KeysNotIn(m.devDependencies, m.dependencies)
  }

  /**
   * `getDependList`: no child named exactly "package.json" (or an empty
   * path) gives no dependencies; otherwise that child's manifest is read,
   * and a manifest that cannot be read or parsed is a fault.
   */
  function GetDependList(children: seq<ChildInfo>, manifests: map<string, Manifest>): (r: Result<seq<string>>)
    ensures r.Err? <==> FirstNamed(children, "package.json").Some? &&
                         FirstNamed(children, "package.json").value.path != "" &&
                         FirstNamed(children, "package.json").value.path !in manifests
    ensures r.Err? ==> r.fault == ReadFailed(FirstNamed(children, "package.json").value.path)
  {
    match FirstNamed(children, "package.json")
    case None => Ok([])
    case Some(c) =>
      if c.path == "" then Ok([])
      else if c.path in manifests then Ok(DependKeys(manifests[c.path]))
      else Err(ReadFailed(c.path))
  }

  /** The JavaScript branch has been reached: no earlier rule fired and exactly one child matches "package.json". */
  predicate ReachesPackageBranch(children: seq<ChildInfo>)
  {
    && !FindFileFromProject(children, ["cargo.toml"])
    && !FindFileFromProject(children, ["pubspec.yaml"])
    && !FindFileFromProject(children, [".*.xcodeproj"])
    && !FindFileFromProject(children, ["app", "gradle"])
    && FindFileFromProject(children, ["package.json"])
  }

  /** The dependency list is consulted: the JavaScript branch found no framework file. */
  predicate ReadsManifest(children: seq<ChildInfo>)
  {
    && ReachesPackageBranch(children)
    && !FindFileFromProject(children, ["nuxt.config.js"])
    && !FindFileFromProject(children, ["vue.config.js"])
    && !FindFileFromProject(children, [".vscodeignore"])
  }

  /** `projectTypeParse`: the label of a project directory with the given children. */
  function ProjectTypeParse(children: seq<ChildInfo>, manifests: map<string, Manifest>): (r: Result<string>)
    ensures r.Ok? ==> r.value in Labels
    ensures r.Err? <==> ReadsManifest(children) && GetDependList(children, manifests).Err?
    ensures r.Err? ==> r.fault == GetDependList(children, manifests).fault
  {
    if FindFileFromProject(children, ["cargo.toml"]) then Ok("rust")
    else if FindFileFromProject(children, ["pubspec.yaml"]) then Ok("dart")
    else if FindFileFromProject(children, [".*.xcodeproj"]) then Ok("applescript")
    else if FindFileFromProject(children, ["app", "gradle"]) then Ok("android")
    else if FindFileFromProject(children, ["package.json"]) then
      if FindFileFromProject(children, ["nuxt.config.js"]) then Ok("nuxt")
      else if FindFileFromProject(children, ["vue.config.js"]) then Ok("vue")
      else if FindFileFromProject(children, [".vscodeignore"]) then Ok("vscode")
      else
        var isTS := FindFileFromProject(children, ["tsconfig.json"]);
        match GetDependList(children, manifests)
        case Err(f) => Err(f)
        case Ok(deps) =>
          if FindDependFromPackage(deps, ["react"]) then Ok(if isTS then "react_ts" else "react")
          else if FindDependFromPackage(deps, ["hexo"]) then Ok("hexo")
          else Ok(if isTS then "typescript" else "javascript")
    else Ok("unknown")
  }
}

/** What the classifier's rules mean, and which evidence it looks at. */
module ClassifierFacts {
  import opened Types
  import opened Text
  import opened Patterns
  import opened Classifier

  /** No two children have names that differ only in ASCII case. */
  predicate FoldedDistinct(children: seq<ChildInfo>)
  {
    forall i, j :: 0 <= i < j < |children| ==> !EqualFolded(children[i].name, children[j].name)
  }

  /** The children that match one of the classifier's file-name patterns. */
  function Relevant(children: seq<ChildInfo>): (r: seq<ChildInfo>)
    ensures forall c :: c in r <==> c in children && MatchesAny(AllPatterns, c.name)
  {
    if children == [] then []
    else (if MatchesAny(AllPatterns, children[0].name) then [children[0]] else []) + Relevant(children[1..])
  }

  lemma {:induction false} CountAppend(cs: seq<ChildInfo>, ds: seq<ChildInfo>, names: seq<string>)
    ensures CountMatching(cs + ds, names) == CountMatching(cs, names) + CountMatching(ds, names)
  {
    if cs != [] {
      assert (cs + ds)[0] == cs[0] && (cs + ds)[1..] == cs[1..] + ds;
      CountAppend(cs[1..], ds, names);
    } else {
      assert cs + ds == ds;
    }
  }

  lemma {:induction false} CountNone(cs: seq<ChildInfo>, names: seq<string>)
    requires forall i :: 0 <= i < |cs| ==> !MatchesAny(names, cs[i].name)
    ensures CountMatching(cs, names) == 0
  {
    if cs != [] {
      CountNone(cs[1..], names);
    }
  }

  /** With one pattern, the count is positive exactly when some child matches it. */
  lemma {:induction false} CountSingle(cs: seq<ChildInfo>, p: string)
    ensures CountMatching(cs, [p]) > 0 <==> exists i :: 0 <= i < |cs| && FullMatch(p, cs[i].name)
  {
    if cs != [] {
      CountSingle(cs[1..], p);
      assert MatchesAny([p], cs[0].name) <==> FullMatch(p, cs[0].name);
      if exists i :: 0 <= i < |cs| && FullMatch(p, cs[i].name) {
        var i :| 0 <= i < |cs| && FullMatch(p, cs[i].name);
        if i > 0 { assert FullMatch(p, cs[1..][i - 1].name); }
      }
    }
  }

  /** Among case-distinct children at most one matches a literal name. */
  lemma {:induction false} CountLiteralAtMostOne(cs: seq<ChildInfo>, p: string)
    requires '*' !in p && '.' !in p
    requires FoldedDistinct(cs)
    ensures CountMatching(cs, [p]) <= 1
  {
    if cs != [] {
      assert MatchesAny([p], cs[0].name) <==> FullMatch(p, cs[0].name);
      LiteralMatch(p, cs[0].name);
      if FullMatch(p, cs[0].name) {
        forall i | 0 <= i < |cs[1..]| ensures !MatchesAny([p], cs[1..][i].name) {
          assert !EqualFolded(cs[0].name, cs[i + 1].name);
          LiteralMatch(p, cs[i + 1].name);
        }
        CountNone(cs[1..], [p]);
      } else {
        CountLiteralAtMostOne(cs[1..], p);
      }
    }
  }

  /** Two patterns no name matches at once are counted separately. */
  lemma {:induction false} CountDisjoint(cs: seq<ChildInfo>, a: string, b: string)
    requires forall s :: !(FullMatch(a, s) && FullMatch(b, s))
    ensures CountMatching(cs, [a, b]) == CountMatching(cs, [a]) + CountMatching(cs, [b])
  {
    if cs != [] {
      var s := cs[0].name;
      assert MatchesAny([a, b], s) <==> FullMatch(a, s) || FullMatch(b, s) by {
        assert [a, b][0] == a && [a, b][1] == b;
      }
      assert MatchesAny([a], s) <==> FullMatch(a, s);
      assert MatchesAny([b], s) <==> FullMatch(b, s);
      CountDisjoint(cs[1..], a, b);
    }
  }

  /**
   * The Android rule: for children whose names are distinct ignoring case,
   * it fires exactly when there is an `app` child and a `gradle` child.
   */
  lemma AndroidRule(cs: seq<ChildInfo>)
    requires FoldedDistinct(cs)
    ensures FindFileFromProject(cs, ["app", "gradle"]) <==>
      (exists i :: 0 <= i < |cs| && EqualFolded(cs[i].name, "app")) &&
      (exists j :: 0 <= j < |cs| && EqualFolded(cs[j].name, "gradle"))
  {
    forall s ensures !(FullMatch("app", s) && FullMatch("gradle", s)) {
      LiteralMatch("app", s);
      LiteralMatch("gradle", s);
    }
    CountDisjoint(cs, "app", "gradle");
    CountLiteralAtMostOne(cs, "app");
    CountLiteralAtMostOne(cs, "gradle");
    CountSingle(cs, "app");
    CountSingle(cs, "gradle");
    forall i | 0 <= i < |cs| ensures (FullMatch("app", cs[i].name) <==> EqualFolded(cs[i].name, "app")) &&
                                     (FullMatch("gradle", cs[i].name) <==> EqualFolded(cs[i].name, "gradle")) {
      LiteralMatch("app", cs[i].name);
      LiteralMatch("gradle", cs[i].name);
    }
  }

  /**
   * Children are counted, not names: two children "app" and "APP" satisfy
   * the two-name Android rule although there is no `gradle` child.
   */
  lemma AndroidRuleCountsChildren()
    ensures FindFileFromProject([ChildInfo("app", "/p/app", true), ChildInfo("APP", "/p/APP", true)], ["app", "gradle"])
  {
    var cs := [ChildInfo("app", "/p/app", true), ChildInfo("APP", "/p/APP", true)];
    LiteralMatch("app", "app");
    LiteralMatch("app", "APP");
    assert MatchesAny(["app", "gradle"], "app") && MatchesAny(["app", "gradle"], "APP") by {
      assert ["app", "gradle"][0] == "app";
    }
    assert cs[1..][1..] == [];
  }

  /** A `cargo.toml` child wins whatever other children are added, as long as they do not match that pattern too. */
  lemma RustDominates(cs: seq<ChildInfo>, extra: seq<ChildInfo>, manifests: map<string, Manifest>)
    requires FindFileFromProject(cs, ["cargo.toml"])
    requires forall i :: 0 <= i < |extra| ==> !FullMatch("cargo.toml", extra[i].name)
    ensures ProjectTypeParse(cs + extra, manifests) == Ok("rust")
  {
    CountAppend(cs, extra, ["cargo.toml"]);
    forall i | 0 <= i < |extra| ensures !MatchesAny(["cargo.toml"], extra[i].name) {
    }
    CountNone(extra, ["cargo.toml"]);
  }

  /**
   * The Rust rule compares the number of matching children with the number
   * of names, so two children that both match `cargo.toml` (names differing
   * only in case) fail it, and the directory is not labelled "rust".
   */
  lemma TwoCargoNotRust(a: ChildInfo, b: ChildInfo, manifests: map<string, Manifest>)
    requires FullMatch("cargo.toml", a.name) && FullMatch("cargo.toml", b.name)
    ensures !FindFileFromProject([a, b], ["cargo.toml"])
    ensures ProjectTypeParse([a, b], manifests) != Ok("rust")
  {
    CountTwo(a, b, ["cargo.toml"]);
    assert MatchesAny(["cargo.toml"], a.name) && MatchesAny(["cargo.toml"], b.name);
    PriorityOrder([a, b], manifests);
  }

  /** `cargo.toml` beside `Cargo.toml` is not a Rust project. */
  lemma TwoCargoScenario()
    ensures ProjectTypeParse([ChildInfo("cargo.toml", "/r/cargo.toml", false), ChildInfo("Cargo.toml", "/r/Cargo.toml", false)], map[]) != Ok("rust")
  {
    StarFreeMatch("cargo.toml", "Cargo.toml");
    StarFreeMatchesItself("cargo.toml");
    TwoCargoNotRust(ChildInfo("cargo.toml", "/r/cargo.toml", false), ChildInfo("Cargo.toml", "/r/Cargo.toml", false), map[]);
  }

  /** The order of the rules: each fires only when every earlier one did not. */
  lemma PriorityOrder(cs: seq<ChildInfo>, manifests: map<string, Manifest>)
    ensures ProjectTypeParse(cs, manifests) == Ok("rust") <==> FindFileFromProject(cs, ["cargo.toml"])
    ensures ProjectTypeParse(cs, manifests) == Ok("dart") <==>
      !FindFileFromProject(cs, ["cargo.toml"]) && FindFileFromProject(cs, ["pubspec.yaml"])
    ensures ProjectTypeParse(cs, manifests) == Ok("applescript") <==>
      !FindFileFromProject(cs, ["cargo.toml"]) && !FindFileFromProject(cs, ["pubspec.yaml"]) &&
      FindFileFromProject(cs, [".*.xcodeproj"])
    ensures ProjectTypeParse(cs, manifests) == Ok("android") <==>
      !FindFileFromProject(cs, ["cargo.toml"]) && !FindFileFromProject(cs, ["pubspec.yaml"]) &&
      !FindFileFromProject(cs, [".*.xcodeproj"]) && FindFileFromProject(cs, ["app", "gradle"])
    ensures ProjectTypeParse(cs, manifests) == Ok("unknown") <==>
      !FindFileFromProject(cs, ["cargo.toml"]) && !FindFileFromProject(cs, ["pubspec.yaml"]) &&
      !FindFileFromProject(cs, [".*.xcodeproj"]) && !FindFileFromProject(cs, ["app", "gradle"]) &&
      !FindFileFromProject(cs, ["package.json"])
    ensures ReachesPackageBranch(cs) ==>
      (ProjectTypeParse(cs, manifests) == Ok("nuxt") <==> FindFileFromProject(cs, ["nuxt.config.js"])) &&
      (ProjectTypeParse(cs, manifests) == Ok("vue") <==>
        !FindFileFromProject(cs, ["nuxt.config.js"]) && FindFileFromProject(cs, ["vue.config.js"])) &&
      (ProjectTypeParse(cs, manifests) == Ok("vscode") <==>
        !FindFileFromProject(cs, ["nuxt.config.js"]) && !FindFileFromProject(cs, ["vue.config.js"]) &&
        FindFileFromProject(cs, [".vscodeignore"]))
  {
  }

  /** With one name, the dependency test holds exactly when some dependency matches it. */
  lemma {:induction false} DependSingle(deps: seq<string>, n: string)
    ensures FindDependFromPackage(deps, [n]) <==> exists i :: 0 <= i < |deps| && FullMatch(n, deps[i])
  {
    if deps != [] {
      DependSingle(deps[1..], n);
      assert MatchesAny([n], deps[0]) <==> FullMatch(n, deps[0]);
      if exists i :: 0 <= i < |deps| && FullMatch(n, deps[i]) {
        var i :| 0 <= i < |deps| && FullMatch(n, deps[i]);
        if i > 0 { assert FullMatch(n, deps[1..][i - 1]); }
      }
    }
  }

  /**
   * The dependency-based rules of the JavaScript branch: a dependency named
   * `react` (any case) gives a React label, else one named `hexo` gives
   * "hexo", else the plain label; `tsconfig.json` picks the TypeScript
   * variant of the React and plain labels.
   */
  lemma JavaScriptRules(cs: seq<ChildInfo>, manifests: map<string, Manifest>, deps: seq<string>)
    requires ReadsManifest(cs)
    requires GetDependList(cs, manifests) == Ok(deps)
    ensures var r := ProjectTypeParse(cs, manifests);
      && (r in {Ok("react"), Ok("react_ts")} <==> exists i :: 0 <= i < |deps| && EqualFolded(deps[i], "react"))
      && (r == Ok("hexo") <==>
            (forall i :: 0 <= i < |deps| ==> !EqualFolded(deps[i], "react")) &&
            (exists i :: 0 <= i < |deps| && EqualFolded(deps[i], "hexo")))
      && (r in {Ok("react_ts"), Ok("typescript")} <==> r != Ok("hexo") && FindFileFromProject(cs, ["tsconfig.json"]))
  {
    DependSingle(deps, "react");
    DependSingle(deps, "hexo");
    forall i | 0 <= i < |deps| ensures (FullMatch("react", deps[i]) <==> EqualFolded(deps[i], "react")) &&
                                       (FullMatch("hexo", deps[i]) <==> EqualFolded(deps[i], "hexo")) {
      LiteralMatch("react", deps[i]);
      LiteralMatch("hexo", deps[i]);
    }
  }

  /** The dependency names are the union of both key lists, each name once. */
  lemma DependKeysUnion(m: Manifest)
    ensures forall k :: k in DependKeys(m) <==> k in m.dependencies || k in m.devDependencies
    ensures NoDuplicates(m.dependencies) && NoDuplicates(m.devDependencies) ==> NoDuplicates(DependKeys(m))
  {
    if NoDuplicates(m.dependencies) && NoDuplicates(m.devDependencies) {
      var a, b := m.dependencies, KeysNotIn(m.devDependencies, m.dependencies);
      KeysNotInDistinct(m.devDependencies, m.dependencies);
      forall i, j | 0 <= i < j < |a + b| ensures (a + b)[i] != (a + b)[j] {
        if j < |a| {
          assert (a + b)[i] == a[i] && (a + b)[j] == a[j];
        } else if i < |a| {
          assert (a + b)[i] == a[i] && (a + b)[j] == b[j - |a|];
          assert b[j - |a|] in b;
        } else {
          assert (a + b)[i] == b[i - |a|] && (a + b)[j] == b[j - |a|];
        }
      }
    }
  }

  predicate NoDuplicates(s: seq<string>)
  {
    forall i, j :: 0 <= i < j < |s| ==> s[i] != s[j]
  }

  lemma {:induction false} KeysNotInDistinct(b: seq<string>, a: seq<string>)
    requires NoDuplicates(b)
    ensures NoDuplicates(KeysNotIn(b, a))
  {
    if b != [] {
      assert NoDuplicates(b[1..]) by {
        forall i, j | 0 <= i < j < |b[1..]| ensures b[1..][i] != b[1..][j] {
          assert b[1..][i] == b[i + 1] && b[1..][j] == b[j + 1];
        }
      }
      KeysNotInDistinct(b[1..], a);
      assert b[0] !in b[1..] by {
        forall i | 0 <= i < |b[1..]| ensures b[1..][i] != b[0] { assert b[1..][i] == b[i + 1]; }
      }
    }
  }

  lemma {:induction false} CountRelevant(cs: seq<ChildInfo>, names: seq<string>)
    requires forall n :: n in names ==> n in AllPatterns
    ensures CountMatching(Relevant(cs), names) == CountMatching(cs, names)
  {
    if cs != [] {
      var c := cs[0];
      var rest := Relevant(cs[1..]);
      CountRelevant(cs[1..], names);
      if MatchesAny(AllPatterns, c.name) {
        assert Relevant(cs) == [c] + rest;
        assert ([c] + rest)[1..] == rest;
      } else {
        assert Relevant(cs) == rest;
        assert !MatchesAny(names, c.name) by {
          forall p | p in names ensures !FullMatch(p, c.name) {
            assert p in AllPatterns;
          }
        }
      }
    }
  }

  /** "package.json" is one of the classifier's patterns. */
  lemma PackageJsonRelevant()
    ensures "package.json" in AllPatterns && FullMatch("package.json", "package.json")
  {
    StarFreeMatchesItself("package.json");
    assert AllPatterns[5] == "package.json";
  }

  lemma MatchesOne(patterns: seq<string>, p: string, s: string)
    requires p in patterns && FullMatch(p, s)
    ensures MatchesAny(patterns, s)
  {
  }

  lemma FirstNamedCons(c: ChildInfo, cs: seq<ChildInfo>, name: string)
    ensures FirstNamed([c] + cs, name) == if c.name == name then Some(c) else FirstNamed(cs, name)
  {
    assert ([c] + cs)[0] == c && ([c] + cs)[1..] == cs;
  }

  lemma {:induction false} FirstNamedRelevant(cs: seq<ChildInfo>)
    ensures FirstNamed(Relevant(cs), "package.json") == FirstNamed(cs, "package.json")
  {
    if cs != [] {
      var c, rest := cs[0], cs[1..];
      assert cs == [c] + rest;
      FirstNamedRelevant(rest);
      if c.name == "package.json" {
        PackageJsonRelevant();
        MatchesOne(AllPatterns, "package.json", c.name);
      }
      if MatchesAny(AllPatterns, c.name) {
        assert Relevant(cs) == [c] + Relevant(rest);
        FirstNamedCons(c, Relevant(rest), "package.json");
      } else {
        assert Relevant(cs) == Relevant(rest);
      }
      FirstNamedCons(c, rest, "package.json");
    }
  }

  /** Two child lists that agree on every test the classifier makes get the same label. */
  lemma SameEvidence(a: seq<ChildInfo>, b: seq<ChildInfo>, manifests: map<string, Manifest>)
    requires FindFileFromProject(a, ["cargo.toml"]) == FindFileFromProject(b, ["cargo.toml"])
    requires FindFileFromProject(a, ["pubspec.yaml"]) == FindFileFromProject(b, ["pubspec.yaml"])
    requires FindFileFromProject(a, [".*.xcodeproj"]) == FindFileFromProject(b, [".*.xcodeproj"])
    requires FindFileFromProject(a, ["app", "gradle"]) == FindFileFromProject(b, ["app", "gradle"])
    requires FindFileFromProject(a, ["package.json"]) == FindFileFromProject(b, ["package.json"])
    requires FindFileFromProject(a, ["nuxt.config.js"]) == FindFileFromProject(b, ["nuxt.config.js"])
    requires FindFileFromProject(a, ["vue.config.js"]) == FindFileFromProject(b, ["vue.config.js"])
    requires FindFileFromProject(a, [".vscodeignore"]) == FindFileFromProject(b, [".vscodeignore"])
    requires FindFileFromProject(a, ["tsconfig.json"]) == FindFileFromProject(b, ["tsconfig.json"])
    requires FirstNamed(a, "package.json") == FirstNamed(b, "package.json")
    ensures ProjectTypeParse(a, manifests) == ProjectTypeParse(b, manifests)
  {
    assert GetDependList(a, manifests) == GetDependList(b, manifests);
  }

  /** The classification depends only on the children that match one of its patterns. */
  lemma RelevantOnly(cs: seq<ChildInfo>, manifests: map<string, Manifest>)
    ensures ProjectTypeParse(Relevant(cs), manifests) == ProjectTypeParse(cs, manifests)
  {
    CountRelevant(cs, ["cargo.toml"]);
    CountRelevant(cs, ["pubspec.yaml"]);
    CountRelevant(cs, [".*.xcodeproj"]);
    CountRelevant(cs, ["app", "gradle"]);
    CountRelevant(cs, ["package.json"]);
    CountRelevant(cs, ["nuxt.config.js"]);
    CountRelevant(cs, ["vue.config.js"]);
    CountRelevant(cs, [".vscodeignore"]);
    CountRelevant(cs, ["tsconfig.json"]);
    FirstNamedRelevant(cs);
    SameEvidence(Relevant(cs), cs, manifests);
  }

  /** A star-free pattern does not match a string of another length or with a rejected character. */
  lemma Mismatch(p: string, s: string, i: nat)
    requires '*' !in p
    requires |p| != |s| || (i < |p| && i < |s| && !AtomMatches(p[i], s[i]))
    ensures !FullMatch(p, s)
  {
    StarFreeMatch(p, s);
  }

  lemma CountTwo(a: ChildInfo, b: ChildInfo, names: seq<string>)
    ensures CountMatching([a, b], names) == (if MatchesAny(names, a.name) then 1 else 0) + (if MatchesAny(names, b.name) then 1 else 0)
  {
    assert [a, b][1..] == [b] && [b][1..] == [];
  }

  /** A lone child matching a pattern is counted once. */
  lemma CountOne(c: ChildInfo, p: string)
    requires FullMatch(p, c.name)
    ensures CountMatching([c], [p]) == 1
  {
    assert MatchesAny([p], c.name);
    assert [c][1..] == [];
  }

  /** A lone `cargo.toml` makes a Rust project. */
  lemma RustScenario()
    ensures ProjectTypeParse([ChildInfo("cargo.toml", "/r/cargo.toml", false)], map[]) == Ok("rust")
  {
    var c := ChildInfo("cargo.toml", "/r/cargo.toml", false);
    StarFreeMatchesItself("cargo.toml");
    CountOne(c, "cargo.toml");
    PriorityOrder([c], map[]);
  }

  /** Which of the classifier's patterns the name "package.json" matches. */
  lemma PackageJsonName(s: string)
    requires s == "package.json"
    ensures !MatchesAny(["cargo.toml"], s) && !MatchesAny(["pubspec.yaml"], s) && !MatchesAny([".*.xcodeproj"], s)
    ensures !MatchesAny(["app", "gradle"], s) && MatchesAny(["package.json"], s)
    ensures !MatchesAny(["nuxt.config.js"], s) && !MatchesAny(["vue.config.js"], s)
    ensures !MatchesAny([".vscodeignore"], s) && !MatchesAny(["tsconfig.json"], s)
  {
    PackageJsonEarlyRules(s);
    PackageJsonLateRules(s);
  }

  lemma PackageJsonEarlyRules(s: string)
    requires s == "package.json"
    ensures !MatchesAny(["cargo.toml"], s) && !MatchesAny(["pubspec.yaml"], s) && !MatchesAny([".*.xcodeproj"], s)
    ensures !MatchesAny(["app", "gradle"], s) && MatchesAny(["package.json"], s)
  {
    assert !MatchesAny(["cargo.toml"], s) by { Mismatch("cargo.toml", s, 0); }
    assert !MatchesAny(["pubspec.yaml"], s) by { Mismatch("pubspec.yaml", s, 1); }
    assert !MatchesAny([".*.xcodeproj"], s) by { XcodeprojMatch(s); assert s[|s| - 9..][0] == 'k'; }
    assert !MatchesAny(["app", "gradle"], s) by { Mismatch("app", s, 0); Mismatch("gradle", s, 0); }
    assert MatchesAny(["package.json"], s) by { StarFreeMatchesItself(s); }
  }

  lemma PackageJsonLateRules(s: string)
    requires s == "package.json"
    ensures !MatchesAny(["nuxt.config.js"], s) && !MatchesAny(["vue.config.js"], s)
    ensures !MatchesAny([".vscodeignore"], s) && !MatchesAny(["tsconfig.json"], s)
  {
    assert !MatchesAny(["nuxt.config.js"], s) by { Mismatch("nuxt.config.js", s, 0); }
    assert !MatchesAny(["vue.config.js"], s) by { Mismatch("vue.config.js", s, 0); }
    assert !MatchesAny([".vscodeignore"], s) by { Mismatch(".vscodeignore", s, 0); }
    assert !MatchesAny(["tsconfig.json"], s) by { Mismatch("tsconfig.json", s, 0); }
  }

  /** Which of the classifier's patterns the name "tsconfig.json" matches. */
  lemma TsconfigName(s: string)
    requires s == "tsconfig.json"
    ensures !MatchesAny(["cargo.toml"], s) && !MatchesAny(["pubspec.yaml"], s) && !MatchesAny([".*.xcodeproj"], s)
    ensures !MatchesAny(["app", "gradle"], s) && !MatchesAny(["package.json"], s)
    ensures !MatchesAny(["nuxt.config.js"], s) && !MatchesAny(["vue.config.js"], s)
    ensures !MatchesAny([".vscodeignore"], s) && MatchesAny(["tsconfig.json"], s)
  {
    TsconfigEarlyRules(s);
    TsconfigLateRules(s);
  }

  lemma TsconfigEarlyRules(s: string)
    requires s == "tsconfig.json"
    ensures !MatchesAny(["cargo.toml"], s) && !MatchesAny(["pubspec.yaml"], s) && !MatchesAny([".*.xcodeproj"], s)
    ensures !MatchesAny(["app", "gradle"], s) && !MatchesAny(["package.json"], s)
  {
    assert !MatchesAny(["cargo.toml"], s) by { Mismatch("cargo.toml", s, 0); }
    assert !MatchesAny(["pubspec.yaml"], s) by { Mismatch("pubspec.yaml", s, 0); }
    assert !MatchesAny([".*.xcodeproj"], s) by { XcodeprojMatch(s); assert s[|s| - 9..][0] == 'n'; }
    assert !MatchesAny(["app", "gradle"], s) by { Mismatch("app", s, 0); Mismatch("gradle", s, 0); }
    assert !MatchesAny(["package.json"], s) by { Mismatch("package.json", s, 0); }
  }

  lemma TsconfigLateRules(s: string)
    requires s == "tsconfig.json"
    ensures !MatchesAny(["nuxt.config.js"], s) && !MatchesAny(["vue.config.js"], s)
    ensures !MatchesAny([".vscodeignore"], s) && MatchesAny(["tsconfig.json"], s)
  {
    assert !MatchesAny(["nuxt.config.js"], s) by { Mismatch("nuxt.config.js", s, 0); }
    assert !MatchesAny(["vue.config.js"], s) by { Mismatch("vue.config.js", s, 0); }
    assert !MatchesAny([".vscodeignore"], s) by { Mismatch(".vscodeignore", s, 1); }
    assert MatchesAny(["tsconfig.json"], s) by { StarFreeMatchesItself(s); }
  }

  /** The dependency rules give "react_ts" when a `react` dependency and a `tsconfig.json` are both present. */
  lemma ReactTypeScriptRule(cs: seq<ChildInfo>, manifests: map<string, Manifest>, deps: seq<string>)
    requires ReadsManifest(cs) && GetDependList(cs, manifests) == Ok(deps)
    requires FindDependFromPackage(deps, ["react"]) && FindFileFromProject(cs, ["tsconfig.json"])
    ensures ProjectTypeParse(cs, manifests) == Ok("react_ts")
  {
  }

  /** The children of the React and TypeScript scenario reach the dependency rules, with `tsconfig.json` present. */
  lemma ReactTypeScriptChildren(a: ChildInfo, b: ChildInfo)
    requires a == ChildInfo("package.json", "/r/package.json", false)
    requires b == ChildInfo("tsconfig.json", "/r/tsconfig.json", false)
    ensures ReadsManifest([a, b]) && FindFileFromProject([a, b], ["tsconfig.json"])
    ensures FirstNamed([a, b], "package.json") == Some(a)
  {
    PackageJsonName(a.name);
    TsconfigName(b.name);
    CountTwo(a, b, ["cargo.toml"]);
    CountTwo(a, b, ["pubspec.yaml"]);
    CountTwo(a, b, [".*.xcodeproj"]);
    CountTwo(a, b, ["app", "gradle"]);
    CountTwo(a, b, ["package.json"]);
    CountTwo(a, b, ["nuxt.config.js"]);
    CountTwo(a, b, ["vue.config.js"]);
    CountTwo(a, b, [".vscodeignore"]);
    CountTwo(a, b, ["tsconfig.json"]);
  }

  /** A `react` dependency satisfies the React test. */
  lemma ReactDependency()
    ensures DependKeys(Manifest(["react"], [])) == ["react"]
    ensures FindDependFromPackage(["react"], ["react"])
  {
    StarFreeMatchesItself("react");
    assert MatchesAny(["react"], "react");
    assert ["react"][1..] == [];
  }

  /** `package.json` and `tsconfig.json` with a `react` dependency make a React TypeScript project. */
  lemma ReactTypeScriptScenario()
    ensures ProjectTypeParse(
      [ChildInfo("package.json", "/r/package.json", false), ChildInfo("tsconfig.json", "/r/tsconfig.json", false)],
      map["/r/package.json" := Manifest(["react"], [])]) == Ok("react_ts")
  {
    var a, b := ChildInfo("package.json", "/r/package.json", false), ChildInfo("tsconfig.json", "/r/tsconfig.json", false);
    var m := map["/r/package.json" := Manifest(["react"], [])];
    ReactTypeScriptChildren(a, b);
    ReactDependency();
    assert GetDependList([a, b], m) == Ok(["react"]);
    ReactTypeScriptRule([a, b], m, ["react"]);
  }

  /** A bare `package.json` without dependencies makes a JavaScript project. */
  lemma JavaScriptScenario()
    ensures ProjectTypeParse([ChildInfo("package.json", "/r/package.json", false)],
      map["/r/package.json" := Manifest([], [])]) == Ok("javascript")
  {
    var a := ChildInfo("package.json", "/r/package.json", false);
    PackageJsonName(a.name);
    assert [a][1..] == [];
    assert FirstNamed([a], "package.json") == Some(a);
    assert DependKeys(Manifest([], [])) == [];
  }
}
