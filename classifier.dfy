/**
 * `_determine_c4_level`: the C4 level of a node, a first-match-wins
 * decision list over user overrides, the node kind, its path, its name and
 * the entry flag.  The orchestrator and the three language plugins each
 * carry a copy; the copies differ only in the extra container test.
 */
module Classifier {
  import opened Wrappers
  import opened Text
  import opened Graph

  /** Which copy of the rules is meant. */
  datatype Variant = ParserRules | JavaScriptRules | JavaRules | PythonRules

  /**
   * `c4_overrides` of the user configuration: `path_contains` maps a level
   * to path fragments and `node_types` maps a level to node kinds, both in
   * the order the configuration lists them.
   */
  datatype Overrides = Overrides(pathContains: seq<(string, seq<string>)>, nodeTypes: seq<(string, seq<NodeKind>)>)

  const NoOverrides: Overrides := Overrides([], [])

  /** What every component is constructed with: the user's overrides and the digest function. */
  datatype Ctx = Ctx(ov: Overrides, md5: Hasher)

  /** The level names the built-in rules produce. */
  const BuiltinLevels: set<string> := {"system", "container", "component", "code"}

  /** `pat and pat.lower() in file_path.lower()`. */
  predicate PatternMatches(pat: string, file: string)
  {
    pat != [] && Contains(Lower(file), Lower(pat))
  }

  predicate AnyPatternMatches(pats: seq<string>, file: string)
  {
    exists i :: 0 <= i < |pats| && PatternMatches(pats[i], file)
  }

  /** The path-based overrides: the first level with a matching fragment. */
  function PathOverride(rules: seq<(string, seq<string>)>, file: string): Option<string>
    decreases |rules|
  {
    if rules == [] then None
    else if AnyPatternMatches(rules[0].1, file) then Some(rules[0].0)
    else PathOverride(rules[1..], file)
  }

  /** The node-type overrides: the first level whose list names the kind. */
  function KindOverride(rules: seq<(string, seq<NodeKind>)>, kind: NodeKind): Option<string>
    decreases |rules|
  {
    if rules == [] then None
    else if kind in rules[0].1 then Some(rules[0].0)
    else KindOverride(rules[1..], kind)
  }

  /** The path-based override returns the level of the first rule with a matching fragment, and nothing if none has one. */
  lemma {:induction false} PathOverrideFirstMatch(rules: seq<(string, seq<string>)>, file: string)
    ensures PathOverride(rules, file).None? <==> forall i :: 0 <= i < |rules| ==> !AnyPatternMatches(rules[i].1, file)
    ensures PathOverride(rules, file).Some? ==>
      exists i :: 0 <= i < |rules| && AnyPatternMatches(rules[i].1, file) && PathOverride(rules, file).value == rules[i].0
        && forall j :: 0 <= j < i ==> !AnyPatternMatches(rules[j].1, file)
    decreases |rules|
  {
    if rules != [] && !AnyPatternMatches(rules[0].1, file) {
      PathOverrideFirstMatch(rules[1..], file);
      assert forall i :: 1 <= i < |rules| ==> rules[i] == rules[1..][i - 1];
      if PathOverride(rules, file).Some? {
        var k :| 0 <= k < |rules[1..]| && AnyPatternMatches(rules[1..][k].1, file)
          && PathOverride(rules, file).value == rules[1..][k].0
          && forall j :: 0 <= j < k ==> !AnyPatternMatches(rules[1..][j].1, file);
        assert rules[k + 1] == rules[1..][k];
        assert forall j :: 0 <= j < k + 1 ==> !AnyPatternMatches(rules[j].1, file) by {
          forall j | 0 <= j < k + 1 ensures !AnyPatternMatches(rules[j].1, file) {
            if j > 0 {
              assert rules[j] == rules[1..][j - 1];
            }
          }
        }
      }
    }
  }

  /** The node-type override returns the level of the first rule listing the kind, and nothing if none lists it. */
  lemma {:induction false} KindOverrideFirstMatch(rules: seq<(string, seq<NodeKind>)>, kind: NodeKind)
    ensures KindOverride(rules, kind).None? <==> forall i :: 0 <= i < |rules| ==> kind !in rules[i].1
    ensures KindOverride(rules, kind).Some? ==>
      exists i :: 0 <= i < |rules| && kind in rules[i].1 && KindOverride(rules, kind).value == rules[i].0
        && forall j :: 0 <= j < i ==> kind !in rules[j].1
    decreases |rules|
  {
    if rules != [] && kind !in rules[0].1 {
      KindOverrideFirstMatch(rules[1..], kind);
      assert forall i :: 1 <= i < |rules| ==> rules[i] == rules[1..][i - 1];
      if KindOverride(rules, kind).Some? {
        var k :| 0 <= k < |rules[1..]| && kind in rules[1..][k].1
          && KindOverride(rules, kind).value == rules[1..][k].0
          && forall j :: 0 <= j < k ==> kind !in rules[1..][j].1;
        assert rules[k + 1] == rules[1..][k];
        assert forall j :: 0 <= j < k + 1 ==> kind !in rules[j].1 by {
          forall j | 0 <= j < k + 1 ensures kind !in rules[j].1 {
            if j > 0 {
              assert rules[j] == rules[1..][j - 1];
            }
          }
        }
      }
    }
  }

  /** The container tests all four copies share: an entry name, or `main.` in the path. */
  predicate CommonContainer(file: string, name: string)
  {
    Lower(name) in ["main", "app", "index"] || Contains(Lower(file), "main.")
  }

  /** The container test of each copy. */
  predicate ContainerRule(v: Variant, file: string, name: string)
  {
    CommonContainer(file, name) ||
    match v
    case ParserRules =>
      EndsWithAny(Lower(file), ["main.tsx", "main.ts", "main.js", "app.tsx", "app.py", "urls.py"])
      || Contains(Lower(name), "springbootapplication")
    case JavaScriptRules => EndsWithAny(Lower(file), ["main.tsx", "main.ts", "main.js", "app.tsx"])
    case JavaRules => Contains(Lower(name), "springbootapplication")
    case PythonRules => EndsWithAny(Lower(file), ["main.py", "app.py", "urls.py"])
  }

  const ComponentKinds: set<NodeKind> := {Component, View, Controller, Service}

  /** Directory names that make a module a feature boundary. */
  const FeatureDirs: seq<string> := ["pages", "components", "views", "controllers", "services"]

  predicate InFeatureDir(file: string)
  {
    exists i :: 0 <= i < |FeatureDirs| && Contains(Lower(file), FeatureDirs[i])
  }

  /** The built-in heuristics, consulted when no override applies. */
  function BuiltinLevel(v: Variant, kind: NodeKind, file: string, name: string, isEntry: bool): string
  {
    if kind == ApiEndpoint then "system"
    else if (isEntry || kind == Module) && ContainerRule(v, file, name) then "container"
    else if kind in ComponentKinds then "component"
    else if kind == Module && InFeatureDir(file) then "component"
    else "code"
  }

  /** `_determine_c4_level(node_type, file_path, name, is_entry)` of copy `v`. */
  function DetermineLevel(v: Variant, ov: Overrides, kind: NodeKind, file: string, name: string, isEntry: bool): string
  {
    match PathOverride(ov.pathContains, file)
    case Some(level) => level
    case None =>
      match KindOverride(ov.nodeTypes, kind)
      case Some(level) => level
      case None => BuiltinLevel(v, kind, file, name, isEntry)
  }

  /**
   * A matching path fragment decides the level before every other rule,
   * for every kind (endpoints included) and every entry flag: the level is
   * that of the first rule with a fragment found, case-insensitively, in
   * the path.
   */
  lemma PathOverrideWins(v: Variant, ov: Overrides, kind: NodeKind, file: string, name: string, isEntry: bool, i: nat)
    requires i < |ov.pathContains| && AnyPatternMatches(ov.pathContains[i].1, file)
    requires forall j :: 0 <= j < i ==> !AnyPatternMatches(ov.pathContains[j].1, file)
    ensures DetermineLevel(v, ov, kind, file, name, isEntry) == ov.pathContains[i].0
  {
    PathOverrideFirstMatch(ov.pathContains, file);
    var r := PathOverride(ov.pathContains, file);
    assert r.Some?;
    var k :| 0 <= k < |ov.pathContains| && AnyPatternMatches(ov.pathContains[k].1, file) && r.value == ov.pathContains[k].0
      && forall j :: 0 <= j < k ==> !AnyPatternMatches(ov.pathContains[j].1, file);
    assert k == i;
  }

  /** With no matching path fragment, the first node-type rule listing the kind decides the level next. */
  lemma KindOverrideNext(v: Variant, ov: Overrides, kind: NodeKind, file: string, name: string, isEntry: bool, i: nat)
    requires forall j :: 0 <= j < |ov.pathContains| ==> !AnyPatternMatches(ov.pathContains[j].1, file)
    requires i < |ov.nodeTypes| && kind in ov.nodeTypes[i].1
    requires forall j :: 0 <= j < i ==> kind !in ov.nodeTypes[j].1
    ensures DetermineLevel(v, ov, kind, file, name, isEntry) == ov.nodeTypes[i].0
  {
    PathOverrideFirstMatch(ov.pathContains, file);
    KindOverrideFirstMatch(ov.nodeTypes, kind);
    var r := KindOverride(ov.nodeTypes, kind);
    var k :| 0 <= k < |ov.nodeTypes| && kind in ov.nodeTypes[k].1 && r.value == ov.nodeTypes[k].0
      && forall j :: 0 <= j < k ==> kind !in ov.nodeTypes[j].1;
    assert k == i;
  }

  /** When no override applies, the result is one of the four built-in levels. */
  lemma NoOverrideGivesBuiltinLevel(v: Variant, ov: Overrides, kind: NodeKind, file: string, name: string, isEntry: bool)
    requires forall j :: 0 <= j < |ov.pathContains| ==> !AnyPatternMatches(ov.pathContains[j].1, file)
    requires forall j :: 0 <= j < |ov.nodeTypes| ==> kind !in ov.nodeTypes[j].1
    ensures DetermineLevel(v, ov, kind, file, name, isEntry) in BuiltinLevels
  {
    PathOverrideFirstMatch(ov.pathContains, file);
    KindOverrideFirstMatch(ov.nodeTypes, kind);
  }

  /** Absent overrides: an endpoint is `system` in every copy, whatever its path, name or entry flag. */
  lemma ApiEndpointIsSystem(v: Variant, file: string, name: string, isEntry: bool)
    ensures DetermineLevel(v, NoOverrides, ApiEndpoint, file, name, isEntry) == "system"
  {
  }

  /**
   * Absent overrides: a component, view, controller or service is
   * `component` exactly when it is not an entry passing the container
   * test, and `container` otherwise.
   */
  lemma ComponentKindsAreComponents(v: Variant, kind: NodeKind, file: string, name: string, isEntry: bool)
    requires kind in ComponentKinds
    ensures DetermineLevel(v, NoOverrides, kind, file, name, isEntry) == "component" <==> !(isEntry && ContainerRule(v, file, name))
    ensures DetermineLevel(v, NoOverrides, kind, file, name, isEntry) == "container" <==> isEntry && ContainerRule(v, file, name)
  {
  }

  /** Absent overrides: a function, class, model or template that is not an entry is `code`. */
  lemma NonEntryCodeKindsAreCode(v: Variant, kind: NodeKind, file: string, name: string)
    requires kind in {Function, Class, Model, Template}
    ensures DetermineLevel(v, NoOverrides, kind, file, name, false) == "code"
  {
  }

  /**
   * Absent overrides: a module is `container` when the copy's container test
   * passes, else `component` inside a feature directory, else `code`.
   */
  lemma ModuleLevels(v: Variant, file: string, name: string, isEntry: bool)
    ensures DetermineLevel(v, NoOverrides, Module, file, name, isEntry) ==
      if ContainerRule(v, file, name) then "container"
      else if InFeatureDir(file) then "component"
      else "code"
  {
  }

  /** The four copies differ only for entries and modules: elsewhere they agree, overrides included. */
  lemma VariantsAgreeOffContainerRule(v1: Variant, v2: Variant, ov: Overrides, kind: NodeKind, file: string, name: string)
    requires kind != Module
    ensures DetermineLevel(v1, ov, kind, file, name, false) == DetermineLevel(v2, ov, kind, file, name, false)
  {
  }

  /**
   * The JavaScript plugin's container test: the name main/app/index, `main.`
   * in the path, or a path ending main.tsx/main.ts/main.js/app.tsx
   * (case-insensitively).  Unlike the orchestrator, it ignores app.py and
   * urls.py.
   */
  lemma JavaScriptContainerTest(file: string, name: string)
    ensures ContainerRule(JavaScriptRules, file, name) <==>
      Lower(name) in ["main", "app", "index"] || Contains(Lower(file), "main.")
      || EndsWith(Lower(file), "main.tsx") || EndsWith(Lower(file), "main.ts")
      || EndsWith(Lower(file), "main.js") || EndsWith(Lower(file), "app.tsx")
    ensures ContainerRule(JavaScriptRules, file, name) ==> ContainerRule(ParserRules, file, name)
  {
    var xs := ["main.tsx", "main.ts", "main.js", "app.tsx"];
    assert EndsWithAny(Lower(file), xs) <==>
      EndsWith(Lower(file), xs[0]) || EndsWith(Lower(file), xs[1]) || EndsWith(Lower(file), xs[2]) || EndsWith(Lower(file), xs[3]);
    if EndsWithAny(Lower(file), xs) {
      var i :| 0 <= i < |xs| && EndsWith(Lower(file), xs[i]);
      var ys := ["main.tsx", "main.ts", "main.js", "app.tsx", "app.py", "urls.py"];
      assert ys[i] == xs[i];
    }
  }

  /** The Python plugin's test: a module whose path ends main.py, app.py or urls.py is `container`, whatever its name. */
  lemma PythonEntryFilesAreContainers(file: string, name: string, isEntry: bool)
    requires EndsWith(Lower(file), "main.py") || EndsWith(Lower(file), "app.py") || EndsWith(Lower(file), "urls.py")
    ensures DetermineLevel(PythonRules, NoOverrides, Module, file, name, isEntry) == "container"
  {
    var xs := ["main.py", "app.py", "urls.py"];
    if EndsWith(Lower(file), "main.py") {
      assert EndsWith(Lower(file), xs[0]);
    } else if EndsWith(Lower(file), "app.py") {
      assert EndsWith(Lower(file), xs[1]);
    } else {
      assert EndsWith(Lower(file), xs[2]);
    }
    assert EndsWithAny(Lower(file), xs);
    assert ContainerRule(PythonRules, file, name);
  }

  /** The Java plugin's test: a name containing `SpringBootApplication` in any case makes an entry or module `container`. */
  lemma SpringBootApplicationIsContainer(kind: NodeKind, file: string, name: string, isEntry: bool)
    requires kind != ApiEndpoint && (isEntry || kind == Module)
    requires Contains(Lower(name), "springbootapplication")
    ensures DetermineLevel(JavaRules, NoOverrides, kind, file, name, isEntry) == "container"
    ensures DetermineLevel(ParserRules, NoOverrides, kind, file, name, isEntry) == "container"
  {
  }
}
