/**
 * The orchestrator's own capture processors, `_process_js_captures` and
 * `_process_java_captures`, as effects on the parser state.  Their nodes
 * carry the orchestrator's id scheme and level rules; the JavaScript one
 * also links the file's imports and merges its JSX and declared names into
 * `file_symbols`; the Java one adds each endpoint id at most once.
 */
module ParserCaptures {
  import opened Wrappers
  import opened Text
  import opened OrderedDict
  import opened Graph
  import opened Classifier
  import opened ParseState
  import JsPlugin
  import JavaPlugin

  /** A declaration node of the orchestrator: id from (file, name), the entry flag, its own level rules. */
  function ParserNode(ctx: Ctx, kind: NodeKind, rel: string, name: string, isEntry: bool): Node
  {
    Node(ParserId(ctx, rel, name), kind, rel, name,
         Meta(Some(isEntry), DetermineLevel(ParserRules, ctx.ov, kind, rel, name, isEntry), None))
  }

  /** How a declaration loop picks the kind of a node: the JavaScript rules of a role, or one kind for all. */
  datatype KindRule = JsRule(role: JsPlugin.Role, ext: string) | FixedKind(kind: NodeKind)

  function KindFor(rule: KindRule, name: string): NodeKind
  {
    match rule
    case JsRule(role, ext) => JsPlugin.KindOf(role, name, ext)
    case FixedKind(k) => k
  }

  /** The nodes of a declaration loop: one per non-empty name, in capture order. */
  function DeclNodes(ctx: Ctx, rel: string, isEntry: bool, rule: KindRule, names: seq<string>): (r: seq<Node>)
    ensures |r| == |NonEmpty(names)|
    ensures forall i :: 0 <= i < |r| ==> r[i] == ParserNode(ctx, KindFor(rule, NonEmpty(names)[i]), rel, NonEmpty(names)[i], isEntry)
  {
    seq(|NonEmpty(names)|, i requires 0 <= i < |NonEmpty(names)| =>
      ParserNode(ctx, KindFor(rule, NonEmpty(names)[i]), rel, NonEmpty(names)[i], isEntry))
  }

  lemma DeclNodesSnoc(ctx: Ctx, rel: string, isEntry: bool, rule: KindRule, names: seq<string>, name: string)
    ensures DeclNodes(ctx, rel, isEntry, rule, names + [name]) ==
      DeclNodes(ctx, rel, isEntry, rule, names) + (if name == [] then [] else [ParserNode(ctx, KindFor(rule, name), rel, name, isEntry)])
  {
    assert (names + [name])[..|names|] == names;
  }

  /** Every node of a declaration loop has a non-empty captured name and is in the file. */
  lemma DeclNodesNames(ctx: Ctx, rel: string, isEntry: bool, rule: KindRule, names: seq<string>)
    ensures forall n :: n in DeclNodes(ctx, rel, isEntry, rule, names) ==>
      n.name in names && n.name != [] && n.file == rel && n.id == ParserId(ctx, rel, n.name)
    ensures forall x :: x in names && x != [] ==>
      exists n :: n in DeclNodes(ctx, rel, isEntry, rule, names) && n.name == x
  {
    var ns := DeclNodes(ctx, rel, isEntry, rule, names);
    forall x | x in names && x != []
      ensures exists n :: n in ns && n.name == x
    {
      var i :| 0 <= i < |NonEmpty(names)| && NonEmpty(names)[i] == x;
      assert ns[i].name == x;
    }
  }

  // ---------------------------------------------------------------------
  // The import loop of `_process_js_captures`

  /** Each captured import text stripped of blanks and quotes. */
  function Stripped(raws: seq<string>): (r: seq<string>)
    ensures |r| == |raws| && forall i :: 0 <= i < |raws| ==> r[i] == StripLiteral(raws[i])
  {
    seq(|raws|, i requires 0 <= i < |raws| => StripLiteral(raws[i]))
  }

  /** The specifiers the import loop links: the stripped captures that are not empty, in order. */
  function ImportSpecs(raws: seq<string>): seq<string>
  {
    NonEmpty(Stripped(raws))
  }

  /** `_add_import_edge` for each specifier in turn. */
  function AddImports(env: Env, s: PState, from: string, specs: seq<string>): PState
    decreases |specs|
  {
    if specs == [] then s else AddImport(env, AddImports(env, s, from, specs[..|specs| - 1]), from, specs[|specs| - 1])
  }

  /** The DependsOn edges of the specifiers that resolve under the index `idx`, in order. */
  function ImportEdges(env: Env, idx: ODict<string>, from: string, specs: seq<string>): seq<Edge>
    decreases |specs|
  {
    if specs == [] then []
    else
      ImportEdges(env, idx, from, specs[..|specs| - 1]) + LinkEdges(env.ctx, from, ImportTarget(env, idx, from, specs[|specs| - 1]))
  }

  /** The edge one import link adds: none without a target, else the DependsOn edge between the module ids. */
  function LinkEdges(ctx: Ctx, from: string, target: Option<string>): seq<Edge>
  {
    match target
    case None => []
    case Some(t) => [Edge(ParserId(ctx, from, "module"), ParserId(ctx, t, "module"), DependsOn)]
  }

  /** A link appends exactly its edge. */
  lemma LinkAppends(ctx: Ctx, s: PState, from: string, target: Option<string>, s': PState)
    requires s' == Link(ctx, s, from, target)
    ensures s'.edges == s.edges + LinkEdges(ctx, from, target)
  {
    if target.Some? {
      ResolvedImportEffect(ctx, s, from, target.value, s');
    }
  }

  /** Linking imports only appends module nodes and leaves everything but nodes, edges and registry as it was. */
  lemma {:induction false} AddImportsFrame(env: Env, s: PState, from: string, specs: seq<string>, s': PState)
    requires s' == AddImports(env, s, from, specs)
    ensures |s.nodes| <= |s'.nodes| && s'.nodes[..|s.nodes|] == s.nodes
    ensures forall i :: |s.nodes| <= i < |s'.nodes| ==> s'.nodes[i].NodeItem? && s'.nodes[i].node.kind == Module
    ensures s'.(nodes := s.nodes, edges := s.edges, registry := s.registry) == s
    decreases |specs|
  {
    if specs != [] {
      var p := AddImports(env, s, from, specs[..|specs| - 1]);
      AddImportsFrame(env, s, from, specs[..|specs| - 1], p);
      match ImportTarget(env, p.moduleIndex, from, specs[|specs| - 1])
      case None =>
      case Some(t) =>
        ResolvedImportEffect(env.ctx, p, from, t, s');
        StepKeepsPrefix(s.nodes, p.nodes, s'.nodes);
    }
  }

  /**
   * Linking a file's imports appends one DependsOn edge per specifier that
   * resolves; the index does not change while linking, so each specifier
   * resolves as it would have before the first one was linked.
   */
  lemma AddImportsEdges(env: Env, s: PState, from: string, specs: seq<string>, s': PState)
    requires s' == AddImports(env, s, from, specs)
    ensures s'.edges == s.edges + ImportEdges(env, s.moduleIndex, from, specs)
  {
    var ts := Targets(env, s.moduleIndex, from, specs);
    AddImportsLinks(env, s, from, specs);
    ImportEdgesLinks(env, s.moduleIndex, from, specs);
    LinkAllEdges(env.ctx, s, from, ts, s');
  }

  /** The link targets of `specs` under the index `idx`, in order. */
  function Targets(env: Env, idx: ODict<string>, from: string, specs: seq<string>): (r: seq<Option<string>>)
    ensures |r| == |specs|
    decreases |specs|
  {
    if specs == [] then [] else Targets(env, idx, from, specs[..|specs| - 1]) + [ImportTarget(env, idx, from, specs[|specs| - 1])]
  }

  /** The links of `ts`, one after the other. */
  function LinkAll(ctx: Ctx, s: PState, from: string, ts: seq<Option<string>>): PState
    decreases |ts|
  {
    if ts == [] then s else Link(ctx, LinkAll(ctx, s, from, ts[..|ts| - 1]), from, ts[|ts| - 1])
  }

  /** The edges of the links of `ts`, in order. */
  function LinkEdgesAll(ctx: Ctx, from: string, ts: seq<Option<string>>): seq<Edge>
    decreases |ts|
  {
    if ts == [] then [] else LinkEdgesAll(ctx, from, ts[..|ts| - 1]) + LinkEdges(ctx, from, ts[|ts| - 1])
  }

  /** The links of `ts` append exactly their edges. */
  lemma {:induction false} LinkAllEdges(ctx: Ctx, s: PState, from: string, ts: seq<Option<string>>, s': PState)
    requires s' == LinkAll(ctx, s, from, ts)
    ensures s'.edges == s.edges + LinkEdgesAll(ctx, from, ts)
    decreases |ts|
  {
    if ts != [] {
      var p := LinkAll(ctx, s, from, ts[..|ts| - 1]);
      LinkAllEdges(ctx, s, from, ts[..|ts| - 1], p);
      LinkAppends(ctx, p, from, ts[|ts| - 1], s');
    }
  }

  /** Since linking leaves the index alone, linking imports is linking their targets under the first index. */
  lemma {:induction false} AddImportsLinks(env: Env, s: PState, from: string, specs: seq<string>)
    ensures AddImports(env, s, from, specs) == LinkAll(env.ctx, s, from, Targets(env, s.moduleIndex, from, specs))
    decreases |specs|
  {
    if specs != [] {
      var init := specs[..|specs| - 1];
      var p := AddImports(env, s, from, init);
      AddImportsLinks(env, s, from, init);
      AddImportsFrame(env, s, from, init, p);
      var ts := Targets(env, s.moduleIndex, from, specs);
      assert ts[..|ts| - 1] == Targets(env, s.moduleIndex, from, init);
      assert p.moduleIndex == s.moduleIndex;
    }
  }

  /** The import edges are the edges of the targets. */
  lemma {:induction false} ImportEdgesLinks(env: Env, idx: ODict<string>, from: string, specs: seq<string>)
    ensures ImportEdges(env, idx, from, specs) == LinkEdgesAll(env.ctx, from, Targets(env, idx, from, specs))
    decreases |specs|
  {
    if specs != [] {
      var init := specs[..|specs| - 1];
      ImportEdgesLinks(env, idx, from, init);
      var ts := Targets(env, idx, from, specs);
      assert ts[..|ts| - 1] == Targets(env, idx, from, init);
    }
  }

  /** Linking imports keeps every registered entry, and registers both ends of every edge it adds. */
  lemma AddImportsRegistry(env: Env, s: PState, from: string, specs: seq<string>, s': PState)
    requires s' == AddImports(env, s, from, specs)
    ensures forall k :: k in s.registry ==> k in s'.registry && s'.registry[k] == s.registry[k]
    ensures forall e :: e in ImportEdges(env, s.moduleIndex, from, specs) ==> e.source in s'.registry && e.target in s'.registry
    ensures RegistryConsistent(s.registry) ==> RegistryConsistent(s'.registry)
  {
    var ts := Targets(env, s.moduleIndex, from, specs);
    AddImportsLinks(env, s, from, specs);
    ImportEdgesLinks(env, s.moduleIndex, from, specs);
    LinkAllRegistry(env.ctx, s, from, ts, s');
  }

  /** The links of `ts` keep every registered entry and register both ends of each of their edges. */
  lemma LinkAllRegistry(ctx: Ctx, s: PState, from: string, ts: seq<Option<string>>, s': PState)
    requires s' == LinkAll(ctx, s, from, ts)
    ensures forall k :: k in s.registry ==> k in s'.registry && s'.registry[k] == s.registry[k]
    ensures forall e :: e in LinkEdgesAll(ctx, from, ts) ==> e.source in s'.registry && e.target in s'.registry
    ensures RegistryConsistent(s.registry) ==> RegistryConsistent(s'.registry)
  {
    LinkAllKept(ctx, s, from, ts, s');
    LinkAllEnds(ctx, s, from, ts, s');
    LinkAllConsistent(ctx, s, from, ts, s');
  }

  lemma {:induction false} LinkAllKept(ctx: Ctx, s: PState, from: string, ts: seq<Option<string>>, s': PState)
    requires s' == LinkAll(ctx, s, from, ts)
    ensures forall k :: k in s.registry ==> k in s'.registry && s'.registry[k] == s.registry[k]
    decreases |ts|
  {
    if ts != [] {
      var p := LinkAll(ctx, s, from, ts[..|ts| - 1]);
      LinkAllKept(ctx, s, from, ts[..|ts| - 1], p);
      var t := ts[|ts| - 1];
      assert s' == Link(ctx, p, from, t);
      if t.Some? {
        ResolvedImportEffect(ctx, p, from, t.value, s');
      }
    }
  }

  lemma {:induction false} LinkAllEnds(ctx: Ctx, s: PState, from: string, ts: seq<Option<string>>, s': PState)
    requires s' == LinkAll(ctx, s, from, ts)
    ensures forall e :: e in LinkEdgesAll(ctx, from, ts) ==> e.source in s'.registry && e.target in s'.registry
    decreases |ts|
  {
    if ts != [] {
      var init, t := ts[..|ts| - 1], ts[|ts| - 1];
      var p := LinkAll(ctx, s, from, init);
      LinkAllEnds(ctx, s, from, init, p);
      assert s' == Link(ctx, p, from, t);
      assert LinkEdgesAll(ctx, from, ts) == LinkEdgesAll(ctx, from, init) + LinkEdges(ctx, from, t);
      if t.Some? {
        ResolvedImportEffect(ctx, p, from, t.value, s');
      } else {
        assert s' == p && LinkEdges(ctx, from, t) == [];
      }
    }
  }

  lemma {:induction false} LinkAllConsistent(ctx: Ctx, s: PState, from: string, ts: seq<Option<string>>, s': PState)
    requires s' == LinkAll(ctx, s, from, ts)
    ensures RegistryConsistent(s.registry) ==> RegistryConsistent(s'.registry)
    decreases |ts|
  {
    if ts != [] {
      var p := LinkAll(ctx, s, from, ts[..|ts| - 1]);
      LinkAllConsistent(ctx, s, from, ts[..|ts| - 1], p);
      var t := ts[|ts| - 1];
      assert s' == Link(ctx, p, from, t);
      if t.Some? {
        ResolvedImportEffect(ctx, p, from, t.value, s');
      }
    }
  }

  /** Two appends in a row keep the first list as a prefix, and the entries after it are those appended. */
  lemma StepKeepsPrefix(a: seq<Entry>, b: seq<Entry>, c: seq<Entry>)
    requires |a| <= |b| && b[..|a|] == a
    requires |b| <= |c| && c[..|b|] == b
    ensures |a| <= |c| && c[..|a|] == a
    ensures forall i :: |a| <= i < |b| ==> c[i] == b[i]
  {
    assert c[..|a|] == c[..|b|][..|a|];
  }

  // ---------------------------------------------------------------------
  // JSX and declared names

  /** The JSX names the parser records: non-empty, starting upper-case, in order and with repeats. */
  function UpperJsx(names: seq<string>): seq<string>
    decreases |names|
  {
    if names == [] then []
    else
      var prev := UpperJsx(names[..|names| - 1]);
      var name := names[|names| - 1];
      if name != [] && IsUpper(name[0]) then prev + [name] else prev
  }

  predicate UpperName(name: string)
  {
    name != [] && IsUpper(name[0])
  }

  /**
   * A JSX capture is recorded iff it is non-empty and starts upper-case,
   * and as many times as it was captured (the parser does not dedupe).
   */
  lemma {:induction false} UpperJsxExactly(names: seq<string>)
    ensures forall x :: x in UpperJsx(names) <==> x in names && UpperName(x)
    ensures forall x :: UpperName(x) ==> multiset(UpperJsx(names))[x] == multiset(names)[x]
    ensures forall x :: !UpperName(x) ==> multiset(UpperJsx(names))[x] == 0
    decreases |names|
  {
    if names != [] {
      var init := names[..|names| - 1];
      UpperJsxExactly(init);
      assert names == init + [names[|names| - 1]];
    }
  }

  /** The entry of `rel` in `file_symbols`, or the empty dictionary `{}`. */
  function SymbolsOf(fs: ODict<FileSymbols>, rel: string): FileSymbols
  {
    match Get(fs, rel)
    case None => FileSymbols(None, None)
    case Some(v) => v
  }

  /** `file_symbols[rel] = {**old, 'jsx_components': jsx}` when `jsx` is not empty. */
  function MergeJsx(fs: ODict<FileSymbols>, rel: string, jsx: seq<string>): ODict<FileSymbols>
  {
    if jsx == [] then fs else Put(fs, rel, SymbolsOf(fs, rel).(jsx := Some(jsx)))
  }

  /** The old `declared` list of an entry, as a set. */
  function OldDeclared(sym: FileSymbols): set<string>
  {
    if sym.declared.Some? then sym.declared.value else {}
  }

  /** `file_symbols[rel] = {**old, 'declared': old declared ∪ declared}` when `declared` is not empty. */
  function MergeDeclared(fs: ODict<FileSymbols>, rel: string, declared: set<string>): ODict<FileSymbols>
  {
    if declared == {} then fs
    else Put(fs, rel, SymbolsOf(fs, rel).(declared := Some(OldDeclared(SymbolsOf(fs, rel)) + declared)))
  }

  /**
   * Merging a file's JSX and declared names into `file_symbols` changes
   * only that file's entry: the JSX list is replaced when there is one, the
   * declared names are added to the ones already there, and every other
   * part of the old entry is kept.
   */
  lemma MergeSymbolsEffect(fs: ODict<FileSymbols>, rel: string, jsx: seq<string>, declared: set<string>)
    requires Valid(fs)
    ensures var r := MergeDeclared(MergeJsx(fs, rel, jsx), rel, declared);
      && Valid(r)
      && (forall k :: k != rel ==> Get(r, k) == Get(fs, k))
      && (jsx == [] && declared == {} ==> r == fs)
      && (jsx != [] || declared != {} ==>
            Get(r, rel) == Some(FileSymbols(
              if jsx != [] then Some(jsx) else SymbolsOf(fs, rel).jsx,
              if declared != {} then Some(OldDeclared(SymbolsOf(fs, rel)) + declared) else SymbolsOf(fs, rel).declared)))
  {
    var f1 := MergeJsx(fs, rel, jsx);
    if jsx != [] {
      PutValid(fs, rel, SymbolsOf(fs, rel).(jsx := Some(jsx)));
    }
    if declared != {} {
      PutValid(f1, rel, SymbolsOf(f1, rel).(declared := Some(OldDeclared(SymbolsOf(f1, rel)) + declared)));
    }
  }

  // ---------------------------------------------------------------------
  // `_process_js_captures`

  /** The class nodes, then the function nodes (named functions first, then variable-bound ones). */
  function JsDeclNodes(ctx: Ctx, rel: string, ext: string, caps: JsPlugin.JsCaptures, isEntry: bool): seq<Node>
  {
    DeclNodes(ctx, rel, isEntry, JsRule(JsPlugin.ClassRole, ext), caps.classNames)
    + DeclNodes(ctx, rel, isEntry, JsRule(JsPlugin.FunctionRole, ext), caps.funcNames + caps.varFuncs)
  }

  /**
   * `_process_js_captures(captures, content, rel, ext, is_entry)`: the
   * declaration nodes are appended and registered, the imports linked, and
   * the upper-case JSX names and the declared names merged into the
   * file's `file_symbols` entry.
   */
  function JsCaptureStep(env: Env, s: PState, caps: JsPlugin.JsCaptures, rel: string, ext: string, isEntry: bool): PState
  {
    var s1 := AddNodes(s, JsDeclNodes(env.ctx, rel, ext, caps, isEntry));
    var s2 := AddImports(env, s1, rel, ImportSpecs(caps.importPaths));
    s2.(fileSymbols := MergeDeclared(MergeJsx(s2.fileSymbols, rel, UpperJsx(caps.jsxNames)), rel, JsPlugin.DeclaredNames(caps)))
  }

  /**
   * What `_process_js_captures` does to the graph: the declaration nodes
   * come first among the appended entries and are registered, the new
   * edges are exactly the DependsOn edges of the resolving imports, the
   * file's symbol entry is merged as `MergeSymbolsEffect` says, and parse
   * bookkeeping is untouched.
   */
  lemma JsCaptureEffect(env: Env, s: PState, caps: JsPlugin.JsCaptures, rel: string, ext: string, isEntry: bool, s': PState)
    requires s' == JsCaptureStep(env, s, caps, rel, ext, isEntry)
    ensures var decl := JsDeclNodes(env.ctx, rel, ext, caps, isEntry);
      && |s.nodes| + |decl| <= |s'.nodes| && s'.nodes[..|s.nodes| + |decl|] == s.nodes + Items(decl)
      && (forall n :: n in decl ==> n.id in s'.registry)
    ensures s'.edges == s.edges + ImportEdges(env, s.moduleIndex, rel, ImportSpecs(caps.importPaths))
    ensures s'.fileSymbols == MergeDeclared(MergeJsx(s.fileSymbols, rel, UpperJsx(caps.jsxNames)), rel, JsPlugin.DeclaredNames(caps))
    ensures s'.moduleIndex == s.moduleIndex && s'.parsedFiles == s.parsedFiles
    ensures s'.fileCache == s.fileCache && s'.jsSymbols == s.jsSymbols
    ensures RegistryConsistent(s.registry) ==> RegistryConsistent(s'.registry)
  {
    var decl := JsDeclNodes(env.ctx, rel, ext, caps, isEntry);
    var s1 := AddNodes(s, decl);
    var s2 := AddImports(env, s1, rel, ImportSpecs(caps.importPaths));
    AddImportsFrame(env, s1, rel, ImportSpecs(caps.importPaths), s2);
    AddImportsEdges(env, s1, rel, ImportSpecs(caps.importPaths), s2);
    AddImportsRegistry(env, s1, rel, ImportSpecs(caps.importPaths), s2);
    RegisterKeys(s.registry, decl);
    forall n | n in decl
      ensures n.id in s1.registry
    {
      RegisterAt(s.registry, decl, n.id);
    }
    if RegistryConsistent(s.registry) {
      RegisterConsistent(s.registry, decl);
    }
  }

  // ---------------------------------------------------------------------
  // `_process_java_captures`

  /** The annotations that make every class of the file a controller. */
  const ControllerAnnotations: seq<string> := ["Controller", "RestController"]

  /**
   * The kind of every class of the file: a controller when some
   * annotation is exactly `Controller` or `RestController`, else a service
   * when one is exactly `Service`, else a plain class.
   */
  function ParserClassKind(anns: seq<string>): NodeKind
  {
    if exists i :: 0 <= i < |anns| && anns[i] in ControllerAnnotations then Controller
    else if "Service" in anns then Service
    else Class
  }

  /**
   * The orchestrator compares annotation names exactly where the Java
   * plugin looks for substrings: whatever the orchestrator makes a
   * controller the plugin does too, and a service of the orchestrator is
   * a service or a controller for the plugin.
   */
  lemma ExactKindsRefineSubstringKinds(anns: seq<string>)
    ensures ParserClassKind(anns) == Controller ==> JavaPlugin.ClassKind(anns) == Controller
    ensures ParserClassKind(anns) == Service ==> JavaPlugin.ClassKind(anns) in {Controller, Service}
  {
    if ParserClassKind(anns) == Controller {
      var i :| 0 <= i < |anns| && anns[i] in ControllerAnnotations;
      if anns[i] == "Controller" {
        ContainsItself(anns[i]);
      } else {
        assert anns[i] == "Rest" + "Controller";
        EndsWithContains(anns[i], "Controller");
      }
      assert JavaPlugin.AnyContains(anns, "Controller");
    } else if ParserClassKind(anns) == Service {
      var i :| 0 <= i < |anns| && anns[i] == "Service";
      ContainsItself(anns[i]);
      assert JavaPlugin.AnyContains(anns, "Service");
    }
  }

  /** The two rules differ: an annotation merely containing `Controller` makes a controller for the plugin only. */
  lemma KindRulesDiffer()
    ensures JavaPlugin.ClassKind(["RestControllerAdvice"]) == Controller
    ensures ParserClassKind(["RestControllerAdvice"]) == Class
  {
    var a := "RestControllerAdvice";
    assert "Controller" <= a[4..];
    ContainsAt(a, "Controller");
    assert Contains([a][0], "Controller");
    assert [a][0] !in ControllerAnnotations;
  }

  /** The orchestrator's endpoint node: the path's id, its own level rules with no entry flag, the path recorded. */
  function ParserEndpointNode(ctx: Ctx, rel: string, path: string): Node
  {
    Node(ApiId(ctx.md5, path), ApiEndpoint, rel, path,
         Meta(None, DetermineLevel(ParserRules, ctx.ov, ApiEndpoint, rel, path, false), Some(path)))
  }

  /** The endpoint loop: each path's node is appended and registered unless its id is registered. */
  function AddEndpoints(ctx: Ctx, s: PState, rel: string, paths: seq<string>): PState
    decreases |paths|
  {
    if paths == [] then s else AddIfMissing(AddEndpoints(ctx, s, rel, paths[..|paths| - 1]), ParserEndpointNode(ctx, rel, paths[|paths| - 1]))
  }

  /** The entries appended after position `from` are endpoint nodes of `paths` with distinct ids none of `reg` holds. */
  predicate FreshEndpoints(ctx: Ctx, rel: string, paths: seq<string>, reg: map<string, Node>, ns: seq<Entry>, from: int)
    requires 0 <= from <= |ns|
  {
    && (forall i :: from <= i < |ns| ==>
          (ns[i].NodeItem? && ns[i].node.id !in reg && exists p :: p in paths && ns[i].node == ParserEndpointNode(ctx, rel, p)))
    && (forall i, j :: from <= i < j < |ns| ==> ns[i].node.id != ns[j].node.id)
  }

  /** The endpoint loop only appends entries and changes nothing but the nodes and the registry. */
  lemma {:induction false} AddEndpointsFrame(ctx: Ctx, s: PState, rel: string, paths: seq<string>, s': PState)
    requires s' == AddEndpoints(ctx, s, rel, paths)
    ensures |s.nodes| <= |s'.nodes| && s'.nodes[..|s.nodes|] == s.nodes
    ensures s'.(nodes := s.nodes, registry := s.registry) == s
    decreases |paths|
  {
    if paths != [] {
      var p := AddEndpoints(ctx, s, rel, paths[..|paths| - 1]);
      AddEndpointsFrame(ctx, s, rel, paths[..|paths| - 1], p);
      AddIfMissingEffect(p, ParserEndpointNode(ctx, rel, paths[|paths| - 1]), s');
      assert s'.nodes[..|p.nodes|] == p.nodes;
      StepKeepsPrefix(s.nodes, p.nodes, s'.nodes);
    }
  }

  /**
   * After the endpoint loop the registry holds exactly the old ids and
   * the ids of the paths, and old entries are unchanged.
   */
  lemma AddEndpointsRegistry(ctx: Ctx, s: PState, rel: string, paths: seq<string>, s': PState)
    requires s' == AddEndpoints(ctx, s, rel, paths)
    ensures s'.registry.Keys == s.registry.Keys + set p | p in paths :: ApiId(ctx.md5, p)
    ensures forall k :: k in s.registry ==> s'.registry[k] == s.registry[k]
    ensures RegistryConsistent(s.registry) ==> RegistryConsistent(s'.registry)
  {
    AddEndpointsKeys(ctx, s, rel, paths, s');
    AddEndpointsKept(ctx, s, rel, paths, s');
    AddEndpointsConsistent(ctx, s, rel, paths, s');
  }

  lemma {:induction false} AddEndpointsKeys(ctx: Ctx, s: PState, rel: string, paths: seq<string>, s': PState)
    requires s' == AddEndpoints(ctx, s, rel, paths)
    ensures s'.registry.Keys == s.registry.Keys + set p | p in paths :: ApiId(ctx.md5, p)
    decreases |paths|
  {
    if paths != [] {
      var init, last := paths[..|paths| - 1], paths[|paths| - 1];
      var p := AddEndpoints(ctx, s, rel, init);
      var n := ParserEndpointNode(ctx, rel, last);
      assert s' == AddIfMissing(p, n);
      AddEndpointsKeys(ctx, s, rel, init, p);
      AddIfMissingKeys(p, n, s');
      EndpointIdsSnoc(ctx, paths);
    }
  }

  lemma {:induction false} AddEndpointsKept(ctx: Ctx, s: PState, rel: string, paths: seq<string>, s': PState)
    requires s' == AddEndpoints(ctx, s, rel, paths)
    ensures forall k :: k in s.registry ==> k in s'.registry && s'.registry[k] == s.registry[k]
    decreases |paths|
  {
    if paths != [] {
      var p := AddEndpoints(ctx, s, rel, paths[..|paths| - 1]);
      AddEndpointsKept(ctx, s, rel, paths[..|paths| - 1], p);
      AddIfMissingEffect(p, ParserEndpointNode(ctx, rel, paths[|paths| - 1]), s');
    }
  }

  /** `AddIfMissing` registers exactly the one id more. */
  lemma AddIfMissingKeys(s: PState, n: Node, s': PState)
    requires s' == AddIfMissing(s, n)
    ensures s'.registry.Keys == s.registry.Keys + {n.id}
  {
  }

  lemma {:induction false} AddEndpointsConsistent(ctx: Ctx, s: PState, rel: string, paths: seq<string>, s': PState)
    requires s' == AddEndpoints(ctx, s, rel, paths)
    ensures RegistryConsistent(s.registry) ==> RegistryConsistent(s'.registry)
    decreases |paths|
  {
    if paths != [] {
      var p := AddEndpoints(ctx, s, rel, paths[..|paths| - 1]);
      AddEndpointsConsistent(ctx, s, rel, paths[..|paths| - 1], p);
      AddIfMissingEffect(p, ParserEndpointNode(ctx, rel, paths[|paths| - 1]), s');
    }
  }

  /** The endpoint ids of `paths` are those of all but the last path, and the last one's. */
  lemma EndpointIdsSnoc(ctx: Ctx, paths: seq<string>)
    requires paths != []
    ensures (set p | p in paths :: ApiId(ctx.md5, p)) ==
      (set p | p in paths[..|paths| - 1] :: ApiId(ctx.md5, p)) + {ApiId(ctx.md5, paths[|paths| - 1])}
  {
    assert paths == paths[..|paths| - 1] + [paths[|paths| - 1]];
  }

  /**
   * The endpoint loop adds each endpoint id once: the appended entries
   * are endpoint nodes of the paths with pairwise distinct ids that were
   * not registered before, each registered afterwards; equal paths thus
   * give a single node.
   */
  lemma {:induction false} AddEndpointsFresh(ctx: Ctx, s: PState, rel: string, paths: seq<string>, s': PState)
    requires s' == AddEndpoints(ctx, s, rel, paths)
    ensures |s.nodes| <= |s'.nodes|
    ensures FreshEndpoints(ctx, rel, paths, s.registry, s'.nodes, |s.nodes|)
    ensures forall i :: |s.nodes| <= i < |s'.nodes| ==> s'.nodes[i].node.id in s'.registry
    decreases |paths|
  {
    if paths != [] {
      var init := paths[..|paths| - 1];
      var p := AddEndpoints(ctx, s, rel, init);
      var n := ParserEndpointNode(ctx, rel, paths[|paths| - 1]);
      assert s' == AddIfMissing(p, n);
      AddEndpointsFresh(ctx, s, rel, init, p);
      AddEndpointsKeys(ctx, s, rel, init, p);
      AddEndpointsRegistered(ctx, s, rel, paths, s');
      FreshAfterStep(ctx, rel, init, paths, s.registry, p.registry, p.nodes, |s.nodes|, n, s'.nodes);
    }
  }

  /** The entries the endpoint loop appends are those of registered nodes. */
  lemma {:induction false} AddEndpointsRegistered(ctx: Ctx, s: PState, rel: string, paths: seq<string>, s': PState)
    requires s' == AddEndpoints(ctx, s, rel, paths)
    ensures |s.nodes| <= |s'.nodes|
    ensures forall i :: |s.nodes| <= i < |s'.nodes| && s'.nodes[i].NodeItem? ==> s'.nodes[i].node.id in s'.registry
    decreases |paths|
  {
    if paths != [] {
      var p := AddEndpoints(ctx, s, rel, paths[..|paths| - 1]);
      var n := ParserEndpointNode(ctx, rel, paths[|paths| - 1]);
      assert s' == AddIfMissing(p, n);
      AddEndpointsRegistered(ctx, s, rel, paths[..|paths| - 1], p);
      AddIfMissingEffect(p, n, s');
      forall i | |s.nodes| <= i < |s'.nodes| && s'.nodes[i].NodeItem?
        ensures s'.nodes[i].node.id in s'.registry
      {
        if i < |p.nodes| {
          assert s'.nodes[i] == p.nodes[i];
        }
      }
    }
  }

  /** One endpoint step keeps the appended entries fresh for the longer path list. */
  lemma FreshAfterStep(ctx: Ctx, rel: string, init: seq<string>, paths: seq<string>, reg: map<string, Node>,
                       reg': map<string, Node>, ns: seq<Entry>, from: int, n: Node, ns': seq<Entry>)
    requires paths != [] && init == paths[..|paths| - 1] && n == ParserEndpointNode(ctx, rel, paths[|paths| - 1])
    requires 0 <= from <= |ns| && FreshEndpoints(ctx, rel, init, reg, ns, from)
    requires reg.Keys <= reg'.Keys
    requires forall i :: from <= i < |ns| && ns[i].NodeItem? ==> ns[i].node.id in reg'
    requires ns' == if n.id in reg' then ns else ns + [NodeItem(n)]
    ensures FreshEndpoints(ctx, rel, paths, reg, ns', from)
  {
    assert paths == init + [paths[|paths| - 1]];
    FreshWiden(ctx, rel, init, paths, reg, ns, from);
    if n.id !in reg' {
      FreshSnoc(ctx, rel, paths, reg, reg', ns, from, n);
    }
  }

  lemma FreshWiden(ctx: Ctx, rel: string, init: seq<string>, paths: seq<string>, reg: map<string, Node>, ns: seq<Entry>, from: int)
    requires 0 <= from <= |ns| && forall q :: q in init ==> q in paths
    requires FreshEndpoints(ctx, rel, init, reg, ns, from)
    ensures FreshEndpoints(ctx, rel, paths, reg, ns, from)
  {
    forall i | from <= i < |ns|
      ensures ns[i].NodeItem? && ns[i].node.id !in reg && exists q :: q in paths && ns[i].node == ParserEndpointNode(ctx, rel, q)
    {
      assert ns[i].NodeItem? && ns[i].node.id !in reg && exists q :: q in init && ns[i].node == ParserEndpointNode(ctx, rel, q);
      var q :| q in init && ns[i].node == ParserEndpointNode(ctx, rel, q);
      assert q in paths;
    }
  }

  /** Appending an endpoint node whose id is not yet registered keeps the appended entries fresh. */
  lemma FreshSnoc(ctx: Ctx, rel: string, paths: seq<string>, reg: map<string, Node>, reg': map<string, Node>,
                  ns: seq<Entry>, from: int, n: Node)
    requires 0 <= from <= |ns| && paths != [] && n == ParserEndpointNode(ctx, rel, paths[|paths| - 1])
    requires FreshEndpoints(ctx, rel, paths, reg, ns, from)
    requires reg.Keys <= reg'.Keys && n.id !in reg'
    requires forall i :: from <= i < |ns| ==> ns[i].node.id in reg'
    ensures FreshEndpoints(ctx, rel, paths, reg, ns + [NodeItem(n)], from)
  {
    var ns' := ns + [NodeItem(n)];
    assert forall i :: from <= i < |ns| ==> ns'[i] == ns[i];
    assert ns'[|ns|].node == ParserEndpointNode(ctx, rel, paths[|paths| - 1]);
  }

  /**
   * `_process_java_captures(captures, content, rel, is_entry)`: the class
   * nodes, all of the file's class kind, are appended and registered, then
   * the endpoint loop runs over the mapping annotations paired with their
   * paths.
   */
  function JavaCaptureStep(ctx: Ctx, s: PState, caps: JavaPlugin.JavaCaptures, rel: string, isEntry: bool): PState
  {
    AddEndpoints(ctx,
      AddNodes(s, DeclNodes(ctx, rel, isEntry, FixedKind(ParserClassKind(caps.annNames)), caps.classNames)),
      rel, JavaPlugin.EndpointPaths(JavaPlugin.Zip(caps.mapAnns, caps.mapPaths)))
  }

  /**
   * What `_process_java_captures` does: the class nodes come first and
   * are registered, every declared endpoint path's id is registered
   * afterwards, and no edge, symbol or bookkeeping field changes.
   */
  lemma JavaCaptureEffect(ctx: Ctx, s: PState, caps: JavaPlugin.JavaCaptures, rel: string, isEntry: bool, s': PState)
    requires s' == JavaCaptureStep(ctx, s, caps, rel, isEntry)
    ensures var cls := DeclNodes(ctx, rel, isEntry, FixedKind(ParserClassKind(caps.annNames)), caps.classNames);
      && |s.nodes| + |cls| <= |s'.nodes| && s'.nodes[..|s.nodes| + |cls|] == s.nodes + Items(cls)
      && (forall n :: n in cls ==> n.id in s'.registry && n.kind == ParserClassKind(caps.annNames))
    ensures forall p :: p in JavaPlugin.EndpointPaths(JavaPlugin.Zip(caps.mapAnns, caps.mapPaths)) ==> ApiId(ctx.md5, p) in s'.registry
    ensures s'.edges == s.edges && s'.fileSymbols == s.fileSymbols && s'.moduleIndex == s.moduleIndex
    ensures s'.parsedFiles == s.parsedFiles && s'.fileCache == s.fileCache
    ensures RegistryConsistent(s.registry) ==> RegistryConsistent(s'.registry)
  {
    var cls := DeclNodes(ctx, rel, isEntry, FixedKind(ParserClassKind(caps.annNames)), caps.classNames);
    var s1 := AddNodes(s, cls);
    var paths := JavaPlugin.EndpointPaths(JavaPlugin.Zip(caps.mapAnns, caps.mapPaths));
    AddEndpointsFrame(ctx, s1, rel, paths, s');
    AddEndpointsRegistry(ctx, s1, rel, paths, s');
    forall n | n in cls
      ensures n.id in s1.registry
    {
      RegisterAt(s.registry, cls, n.id);
    }
    if RegistryConsistent(s.registry) {
      RegisterConsistent(s.registry, cls);
    }
    forall p | p in paths
      ensures ApiId(ctx.md5, p) in s'.registry
    {
      assert ApiId(ctx.md5, p) in set q | q in paths :: ApiId(ctx.md5, q);
    }
  }
}
