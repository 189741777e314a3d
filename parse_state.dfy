/**
 * The state of `LanguageParser` as a value, and the effect of each of its
 * file-level operations on that state: the processed-once and cache-hit
 * protocol of `_parse_file`, the plugin choice, the sweep of
 * `_parse_additional_files`, the module index and `_add_import_edge`.
 * The file system and the syntax-tree engines are an `Env`.
 */
module ParseState {
  import opened Wrappers
  import opened Text
  import opened Paths
  import opened OrderedDict
  import opened Graph
  import opened Classifier
  import opened Resolver
  import JsPlugin
  import JavaPlugin
  import PythonPlugin

  /**
   * An item of `self.nodes`.  Besides nodes, `extend` appends the two
   * halves of the `(nodes, symbols)` tuple the Python plugin returns: a
   * list of nodes and a symbol table.
   */
  datatype Entry =
    | NodeItem(node: Node)
    | NodeListItem(items: seq<Node>)
    | SymbolsItem(symbols: Option<PythonPlugin.PySymbols>)

  /**
   * What the parser reads from the outside world: the overrides and the
   * digest function, the project-relative paths that exist, the text of
   * each file that reads and decodes, the captures of each JavaScript or
   * Java file whose grammar loads, the walk of each Python file that
   * parses, and the names each JavaScript and Python file calls.
   */
  datatype Env = Env(
    ctx: Ctx,
    existing: set<string>,
    contents: map<string, string>,
    jsTrees: map<string, JsPlugin.JsCaptures>,
    javaTrees: map<string, JavaPlugin.JavaCaptures>,
    pyTrees: map<string, seq<PythonPlugin.PyNode>>,
    jsCalls: map<string, seq<string>>,
    pyCalls: map<string, seq<string>>)

  /**
   * The fields of `LanguageParser` (`file_cache` holds digests), and the
   * `file_symbols` of its JavaScript plugin.
   */
  datatype PState = PState(
    nodes: seq<Entry>,
    edges: seq<Edge>,
    registry: map<string, Node>,
    fileSymbols: ODict<FileSymbols>,
    moduleIndex: ODict<string>,
    parsedFiles: set<string>,
    fileCache: map<string, string>,
    jsSymbols: map<string, JsPlugin.JsSymbols>)

  /** The state of a new parser. */
  function Initial(): PState
  {
    PState([], [], map[], Empty(), Empty(), {}, map[], map[])
  }

  function Lookup<T>(m: map<string, T>, k: string): Option<T>
  {
    if k in m then Some(m[k]) else None
  }

  /** Every registry entry is stored under its own id. */
  predicate RegistryConsistent(reg: map<string, Node>)
  {
    forall k :: k in reg ==> reg[k].id == k
  }

  // ---------------------------------------------------------------------
  // Registering nodes

  /** `for node in nodes: registry[node.id] = node`. */
  function Register(reg: map<string, Node>, ns: seq<Node>): map<string, Node>
    decreases |ns|
  {
    if ns == [] then reg else Register(reg, ns[..|ns| - 1])[ns[|ns| - 1].id := ns[|ns| - 1]]
  }

  /** The last node of `ns` with id `k`. */
  function LastWithId(ns: seq<Node>, k: string): (r: Option<Node>)
    ensures r.Some? ==> r.value in ns && r.value.id == k
    ensures r.None? <==> forall i :: 0 <= i < |ns| ==> ns[i].id != k
    decreases |ns|
  {
    if ns == [] then None
    else if ns[|ns| - 1].id == k then Some(ns[|ns| - 1])
    else
      var r := LastWithId(ns[..|ns| - 1], k);
      assert forall i :: 0 <= i < |ns| - 1 ==> ns[..|ns| - 1][i] == ns[i];
      r
  }

  /** After registering `ns`, an id is present iff it was or some node has it, and holds the last such node. */
  lemma {:induction false} RegisterAt(reg: map<string, Node>, ns: seq<Node>, k: string)
    ensures k in Register(reg, ns) <==> k in reg || LastWithId(ns, k).Some?
    ensures k in Register(reg, ns) ==>
      Register(reg, ns)[k] == if LastWithId(ns, k).Some? then LastWithId(ns, k).value else reg[k]
    decreases |ns|
  {
    if ns != [] {
      RegisterAt(reg, ns[..|ns| - 1], k);
    }
  }

  lemma {:induction false} RegisterConsistent(reg: map<string, Node>, ns: seq<Node>)
    requires RegistryConsistent(reg)
    ensures RegistryConsistent(Register(reg, ns))
    decreases |ns|
  {
    if ns != [] {
      RegisterConsistent(reg, ns[..|ns| - 1]);
    }
  }

  /** The entries of a node list. */
  function Items(ns: seq<Node>): (r: seq<Entry>)
    ensures |r| == |ns| && forall i :: 0 <= i < |ns| ==> r[i] == NodeItem(ns[i])
  {
    seq(|ns|, i requires 0 <= i < |ns| => NodeItem(ns[i]))
  }

  /** `self.nodes.extend(nodes)` followed by registering each node. */
  function AddNodes(s: PState, ns: seq<Node>): PState
  {
    s.(nodes := s.nodes + Items(ns), registry := Register(s.registry, ns))
  }

  lemma AddNodesSnoc(s: PState, ns: seq<Node>, n: Node)
    ensures AddNodes(s, ns + [n]) ==
      AddNodes(s, ns).(nodes := AddNodes(s, ns).nodes + [NodeItem(n)],
                       registry := AddNodes(s, ns).registry[n.id := n])
  {
    assert (ns + [n])[..|ns|] == ns;
    assert Items(ns + [n]) == Items(ns) + [NodeItem(n)];
  }

  /** Append and register `n` unless its id is already registered. */
  function AddIfMissing(s: PState, n: Node): PState
  {
    if n.id in s.registry then s else s.(nodes := s.nodes + [NodeItem(n)], registry := s.registry[n.id := n])
  }

  // ---------------------------------------------------------------------
  // `_add_import_edge`

  /** The orchestrator's own node ids (`_generate_node_id`). */
  function ParserId(ctx: Ctx, file: string, name: string): string
  {
    PrefixedId(ctx.md5, file, name)
  }

  /** The module node `_add_import_edge` creates: no entry flag, level computed as for a non-entry. */
  function ImportModuleNode(ctx: Ctx, file: string): Node
  {
    Node(ParserId(ctx, file, "module"), Module, file, Stem(file),
         Meta(None, DetermineLevel(ParserRules, ctx.ov, Module, file, Stem(file), false), None))
  }

  /** The effect of `_add_import_edge` once the specifier resolved to `target`. */
  function AddResolvedImport(ctx: Ctx, s: PState, from: string, target: string): PState
  {
    var src := ImportModuleNode(ctx, from);
    var tgt := ImportModuleNode(ctx, target);
    var s2 := AddIfMissing(AddIfMissing(s, src), tgt);
    s2.(edges := s2.edges + [Edge(src.id, tgt.id, DependsOn)])
  }

  /**
   * `_add_import_edge(from_file, import_path)`: nothing when the specifier
   * does not resolve (or resolves to an empty path); otherwise the module
   * nodes of both files are created if their ids are not registered, and
   * one DependsOn edge is appended.
   */
  function AddImport(env: Env, s: PState, from: string, spec: string): PState
  {
    Link(env.ctx, s, from, ImportTarget(env, s.moduleIndex, from, spec))
  }

  /** The link of one import: nothing without a target, else the resolved import. */
  function Link(ctx: Ctx, s: PState, from: string, target: Option<string>): PState
  {
    match target
    case None => s
    case Some(t) => AddResolvedImport(ctx, s, from, t)
  }

  /** The file an import specifier links to: its resolution, unless that is missing or empty. */
  function ImportTarget(env: Env, idx: ODict<string>, from: string, spec: string): (r: Option<string>)
    ensures r.Some? <==> Resolve(idx, env.existing, from, spec).Some? && Resolve(idx, env.existing, from, spec).value != ""
    ensures r.Some? ==> r == Resolve(idx, env.existing, from, spec)
  {
    match Resolve(idx, env.existing, from, spec)
    case None => None
    case Some(target) => if target == "" then None else Some(target)
  }

  /** An unresolved specifier changes nothing. */
  lemma UnresolvedImportChangesNothing(env: Env, s: PState, from: string, spec: string)
    requires Resolve(s.moduleIndex, env.existing, from, spec).None?
    ensures AddImport(env, s, from, spec) == s
  {
  }

  /** `AddIfMissing` registers the id, keeps earlier entries and appends at most the node. */
  lemma AddIfMissingEffect(s: PState, n: Node, s': PState)
    requires s' == AddIfMissing(s, n)
    ensures n.id in s'.registry
    ensures forall k :: k in s.registry ==> k in s'.registry && s'.registry[k] == s.registry[k]
    ensures s'.nodes == s.nodes || s'.nodes == s.nodes + [NodeItem(n)]
    ensures s'.(nodes := s.nodes, registry := s.registry) == s
    ensures RegistryConsistent(s.registry) ==> RegistryConsistent(s'.registry)
  {
  }

  /**
   * A resolved import appends exactly the DependsOn edge between the two
   * module ids and at most two module nodes; both ids are registered
   * afterwards, earlier entries keep their values, and the other fields
   * are untouched.
   */
  lemma ResolvedImportEffect(ctx: Ctx, s: PState, from: string, target: string, s': PState)
    requires s' == AddResolvedImport(ctx, s, from, target)
    ensures s'.edges == s.edges + [Edge(ParserId(ctx, from, "module"), ParserId(ctx, target, "module"), DependsOn)]
    ensures |s.nodes| <= |s'.nodes| <= |s.nodes| + 2 && s'.nodes[..|s.nodes|] == s.nodes
    ensures forall i :: |s.nodes| <= i < |s'.nodes| ==> s'.nodes[i].NodeItem? && s'.nodes[i].node.kind == Module
    ensures ParserId(ctx, from, "module") in s'.registry && ParserId(ctx, target, "module") in s'.registry
    ensures forall k :: k in s.registry ==> k in s'.registry && s'.registry[k] == s.registry[k]
    ensures s'.(nodes := s.nodes, edges := s.edges, registry := s.registry) == s
    ensures RegistryConsistent(s.registry) ==> RegistryConsistent(s'.registry)
  {
    var src := ImportModuleNode(ctx, from);
    var tgt := ImportModuleNode(ctx, target);
    var s1 := AddIfMissing(s, src);
    var s2 := AddIfMissing(s1, tgt);
    AddIfMissingEffect(s, src, s1);
    AddIfMissingEffect(s1, tgt, s2);
    ModuleEntries(s.nodes, s1.nodes, s2.nodes, src, tgt);
  }

  /** Appending at most one module node twice appends at most two module entries. */
  lemma ModuleEntries(a: seq<Entry>, b: seq<Entry>, c: seq<Entry>, x: Node, y: Node)
    requires x.kind == Module && y.kind == Module
    requires b == a || b == a + [NodeItem(x)]
    requires c == b || c == b + [NodeItem(y)]
    ensures |a| <= |c| <= |a| + 2 && c[..|a|] == a
    ensures forall i :: |a| <= i < |c| ==> c[i].NodeItem? && c[i].node.kind == Module
  {
  }

  // ---------------------------------------------------------------------
  // `_get_plugin_for_extension`

  /** The three language plugins, in the order the parser lists them. */
  datatype Plugin = JavaScriptLang | JavaLang | PythonLang

  const PluginOrder: seq<Plugin> := [JavaScriptLang, JavaLang, PythonLang]

  /** `plugin.can_parse(ext)`. */
  predicate Claims(p: Plugin, ext: string)
  {
    match p
    case JavaScriptLang => JsPlugin.CanParse(ext)
    case JavaLang => JavaPlugin.CanParse(ext)
    case PythonLang => PythonPlugin.CanParse(ext)
  }

  /** The first plugin of `ps` that claims `ext`. */
  function FirstClaiming(ps: seq<Plugin>, ext: string): (r: Option<Plugin>)
    ensures r.Some? ==> r.value in ps && Claims(r.value, ext)
    ensures r.None? <==> forall i :: 0 <= i < |ps| ==> !Claims(ps[i], ext)
    decreases |ps|
  {
    if ps == [] then None
    else if Claims(ps[0], ext) then Some(ps[0])
    else
      assert forall i :: 1 <= i < |ps| ==> ps[i] == ps[1..][i - 1];
      FirstClaiming(ps[1..], ext)
  }

  /** `_get_plugin_for_extension`. */
  function PluginFor(ext: string): Option<Plugin>
  {
    FirstClaiming(PluginOrder, ext)
  }

  /**
   * No two plugins claim the same extension, so the first claiming plugin
   * is the one claiming plugin: each plugin is chosen exactly for the
   * extensions it claims, and none for an extension nobody claims.
   */
  lemma PluginForExactly(ext: string)
    ensures PluginFor(ext) == Some(JavaScriptLang) <==> Lower(ext) in [".js", ".jsx", ".ts", ".tsx"]
    ensures PluginFor(ext) == Some(JavaLang) <==> Lower(ext) == ".java"
    ensures PluginFor(ext) == Some(PythonLang) <==> Lower(ext) == ".py"
    ensures PluginFor(ext).None? <==> !Claims(JavaScriptLang, ext) && !Claims(JavaLang, ext) && !Claims(PythonLang, ext)
  {
  }

  // ---------------------------------------------------------------------
  // `_parse_file`

  /** Files `_parse_file` never looks at. */
  predicate Excluded(rel: string)
  {
    Contains(rel, "node_modules") || EndsWith(rel, ".d.ts")
  }

  /** The Template node of an HTML file; its id is that of (file, `template`). */
  function TemplateNode(ctx: Ctx, rel: string, isEntry: bool): Node
  {
    Node(ParserId(ctx, rel, "template"), Template, rel, Stem(rel),
         Meta(Some(isEntry), DetermineLevel(ParserRules, ctx.ov, Template, rel, Stem(rel), isEntry), None))
  }

  /**
   * What extracting one file contributes: nodes that are appended and
   * registered (with the JavaScript plugin's new symbol entry, if any), or
   * entries that are appended while registering them fails.
   */
  datatype Outcome =
    | Registered(ns: seq<Node>, jsEntry: Option<JsPlugin.JsSymbols>)
    | Unregistered(items: seq<Entry>)

  /** The JavaScript plugin's outcome: its nodes, and its symbol entry when the file was parsed. */
  function JsOutcome(ns: seq<Node>, syntax: Option<JsPlugin.JsCaptures>): Outcome
  {
    Registered(ns, if syntax.Some? && ns != [] then Some(JsPlugin.JsSymbols(NamesOf(ns[1..]), syntax.value.importPaths)) else None)
  }

  /**
   * The plugin dispatch of `_parse_file`.  A JavaScript or Java file's nodes
   * are registered; the Python plugin's tuple is appended as two items and
   * registering then fails on the first (a list has no `id`); an HTML file
   * nobody claims gets a Template node; any other file gets nothing.
   */
  function FileOutcome(env: Env, rel: string, isEntry: bool): Outcome
  {
    match PluginFor(Lower(Suffix(rel)))
    case Some(JavaScriptLang) =>
      JsOutcome(JsPlugin.ParseNodes(env.ctx, rel, isEntry, Lookup(env.jsTrees, rel)), Lookup(env.jsTrees, rel))
    case Some(JavaLang) =>
      Registered(JavaPlugin.ParseNodes(env.ctx, rel, isEntry, Lookup(env.javaTrees, rel)), None)
    case Some(PythonLang) =>
      var res := PythonPlugin.ParseResult(env.ctx, rel, isEntry, Lookup(env.pyTrees, rel));
      Unregistered([NodeListItem(res.0), SymbolsItem(res.1)])
    case None =>
      Registered(if Lower(Suffix(rel)) == ".html" then [TemplateNode(env.ctx, rel, isEntry)] else [], None)
  }

  /**
   * The state after an outcome: registered nodes are appended and
   * registered and the digest `h` is cached; when registering fails the
   * entries are appended and nothing else changes.
   */
  function Apply(s: PState, rel: string, h: string, o: Outcome): PState
  {
    match o
    case Registered(ns, jsEntry) =>
      AddNodes(s, ns).(jsSymbols := if jsEntry.Some? then s.jsSymbols[rel := jsEntry.value] else s.jsSymbols,
                       fileCache := s.fileCache[rel := h])
    case Unregistered(items) => s.(nodes := s.nodes + items)
  }

  /** `Apply` of a registered outcome, field by field. */
  lemma ApplyRegistered(s: PState, rel: string, h: string, ns: seq<Node>, jsEntry: Option<JsPlugin.JsSymbols>)
    ensures Apply(s, rel, h, Registered(ns, jsEntry)) ==
      PState(s.nodes + Items(ns), s.edges, Register(s.registry, ns), s.fileSymbols, s.moduleIndex, s.parsedFiles,
             s.fileCache[rel := h], if jsEntry.Some? then s.jsSymbols[rel := jsEntry.value] else s.jsSymbols)
  {
  }

  /** What applying an outcome changes. */
  lemma ApplyFrame(s: PState, rel: string, h: string, o: Outcome, s': PState)
    requires s' == Apply(s, rel, h, o)
    ensures s'.parsedFiles == s.parsedFiles && s'.edges == s.edges
    ensures s'.fileSymbols == s.fileSymbols && s'.moduleIndex == s.moduleIndex
    ensures |s.nodes| <= |s'.nodes| && s'.nodes[..|s.nodes|] == s.nodes
    ensures s.registry.Keys <= s'.registry.Keys
    ensures o.Registered? ==> s'.fileCache == s.fileCache[rel := h] && s'.nodes == s.nodes + Items(o.ns)
    ensures o.Registered? ==> s'.registry == Register(s.registry, o.ns)
    ensures o.Unregistered? ==> s' == s.(nodes := s.nodes + o.items)
    ensures RegistryConsistent(s.registry) ==> RegistryConsistent(s'.registry)
  {
    if o.Registered? {
      RegisterKeys(s.registry, o.ns);
      if RegistryConsistent(s.registry) {
        RegisterConsistent(s.registry, o.ns);
      }
    }
  }

  /** The cached digest of `rel` equals `h`. */
  predicate CacheHit(s: PState, rel: string, h: string)
  {
    rel in s.fileCache && s.fileCache[rel] == h
  }

  /**
   * `_parse_file(file_path, is_entry)` for the project-relative path `rel`:
   * excluded, already parsed and unreadable files change nothing; a cache
   * hit only marks the file as parsed; otherwise the file is marked and
   * extracted.
   */
  function ParseFileStep(env: Env, s: PState, rel: string, isEntry: bool): PState
  {
    if Excluded(rel) || rel in s.parsedFiles || rel !in env.contents then s
    else if CacheHit(s, rel, env.ctx.md5(env.contents[rel])) then s.(parsedFiles := s.parsedFiles + {rel})
    else Apply(s.(parsedFiles := s.parsedFiles + {rel}), rel, env.ctx.md5(env.contents[rel]), FileOutcome(env, rel, isEntry))
  }

  /** `_parse_file` on each of `files`, in order. */
  function ParseAll(env: Env, s: PState, files: seq<string>, isEntry: bool): PState
    decreases |files|
  {
    if files == [] then s else ParseFileStep(env, ParseAll(env, s, files[..|files| - 1], isEntry), files[|files| - 1], isEntry)
  }

  /** Excluded files, files already parsed and files that cannot be read leave the state as it is. */
  lemma SkippedFilesChangeNothing(env: Env, s: PState, rel: string, isEntry: bool)
    requires Excluded(rel) || rel in s.parsedFiles || rel !in env.contents
    ensures ParseFileStep(env, s, rel, isEntry) == s
  {
  }

  /** A file is never extracted twice: parsing it again, entry or not, changes nothing. */
  lemma ParseFileIdempotent(env: Env, s: PState, rel: string, isEntry1: bool, isEntry2: bool)
    ensures ParseFileStep(env, ParseFileStep(env, s, rel, isEntry1), rel, isEntry2) == ParseFileStep(env, s, rel, isEntry1)
  {
    var s' := ParseFileStep(env, s, rel, isEntry1);
    if !Excluded(rel) && rel !in s.parsedFiles && rel in env.contents {
      var h := env.ctx.md5(env.contents[rel]);
      if !CacheHit(s, rel, h) {
        ApplyFrame(s.(parsedFiles := s.parsedFiles + {rel}), rel, h, FileOutcome(env, rel, isEntry1), s');
      }
      assert rel in s'.parsedFiles;
    }
  }

  /** On a cache hit only `parsed_files` changes, gaining the path. */
  lemma CacheHitOnlyMarksParsed(env: Env, s: PState, rel: string, isEntry: bool)
    requires !Excluded(rel) && rel !in s.parsedFiles && rel in env.contents
    requires CacheHit(s, rel, env.ctx.md5(env.contents[rel]))
    ensures ParseFileStep(env, s, rel, isEntry) == s.(parsedFiles := s.parsedFiles + {rel})
  {
  }

  /**
   * What `_parse_file` changes: a readable file that is not excluded ends
   * up in `parsed_files` and nothing else is added there; nodes are only
   * appended; registered ids stay registered; edges, `file_symbols` and the
   * module index are untouched; the cache changes at most by writing the
   * file's digest; the registry keeps every entry under its own id.
   */
  lemma ParseFileFrame(env: Env, s: PState, rel: string, isEntry: bool, s': PState)
    requires s' == ParseFileStep(env, s, rel, isEntry)
    ensures s'.parsedFiles == if !Excluded(rel) && rel in env.contents then s.parsedFiles + {rel} else s.parsedFiles
    ensures |s.nodes| <= |s'.nodes| && s'.nodes[..|s.nodes|] == s.nodes
    ensures s.registry.Keys <= s'.registry.Keys
    ensures s'.edges == s.edges && s'.fileSymbols == s.fileSymbols && s'.moduleIndex == s.moduleIndex
    ensures s'.fileCache == s.fileCache || (rel in env.contents && s'.fileCache == s.fileCache[rel := env.ctx.md5(env.contents[rel])])
    ensures RegistryConsistent(s.registry) ==> RegistryConsistent(s'.registry)
  {
    if !Excluded(rel) && rel !in s.parsedFiles && rel in env.contents {
      var h := env.ctx.md5(env.contents[rel]);
      if !CacheHit(s, rel, h) {
        ApplyFrame(s.(parsedFiles := s.parsedFiles + {rel}), rel, h, FileOutcome(env, rel, isEntry), s');
      }
    }
  }

  lemma RegisterKeys(reg: map<string, Node>, ns: seq<Node>)
    ensures reg.Keys <= Register(reg, ns).Keys
  {
    forall k | k in reg
      ensures k in Register(reg, ns)
    {
      RegisterAt(reg, ns, k);
    }
  }

  /** Only the Python plugin's outcome fails to register. */
  lemma OutcomeKinds(env: Env, rel: string, isEntry: bool)
    ensures FileOutcome(env, rel, isEntry).Unregistered? <==> PluginFor(Lower(Suffix(rel))) == Some(PythonLang)
    ensures FileOutcome(env, rel, isEntry).Unregistered? ==>
      exists ns, sym :: FileOutcome(env, rel, isEntry).items == [NodeListItem(ns), SymbolsItem(sym)]
  {
    match PluginFor(Lower(Suffix(rel)))
    case Some(PythonLang) =>
      var res := PythonPlugin.ParseResult(env.ctx, rel, isEntry, Lookup(env.pyTrees, rel));
      assert FileOutcome(env, rel, isEntry).items == [NodeListItem(res.0), SymbolsItem(res.1)];
    case Some(JavaScriptLang) =>
    case Some(JavaLang) =>
    case None =>
  }

  /**
   * A file that is extracted gets its digest cached exactly when extraction
   * finishes: always, except for a Python file, whose tuple breaks the
   * registration loop; that file's two entries are appended but the
   * registry and the cache keep their old contents.
   */
  lemma CacheWrittenUnlessPython(env: Env, s: PState, rel: string, isEntry: bool, s': PState)
    requires !Excluded(rel) && rel !in s.parsedFiles && rel in env.contents
    requires !CacheHit(s, rel, env.ctx.md5(env.contents[rel]))
    requires s' == ParseFileStep(env, s, rel, isEntry)
    ensures CacheHit(s', rel, env.ctx.md5(env.contents[rel])) <==> PluginFor(Lower(Suffix(rel))) != Some(PythonLang)
    ensures PluginFor(Lower(Suffix(rel))) == Some(PythonLang) ==>
      && s'.registry == s.registry && s'.fileCache == s.fileCache
      && |s'.nodes| == |s.nodes| + 2 && s'.nodes[|s.nodes|].NodeListItem? && s'.nodes[|s.nodes| + 1].SymbolsItem?
  {
    var h := env.ctx.md5(env.contents[rel]);
    var o := FileOutcome(env, rel, isEntry);
    OutcomeKinds(env, rel, isEntry);
    CacheAfterOutcome(s.(parsedFiles := s.parsedFiles + {rel}), rel, h, o, s');
    if o.Unregistered? {
      var ns, sym :| o.items == [NodeListItem(ns), SymbolsItem(sym)];
      assert s'.nodes == s.nodes + [NodeListItem(ns), SymbolsItem(sym)];
    }
  }

  /** Applying an outcome caches `h` for `rel` exactly when it registers; otherwise it only appends the entries. */
  lemma CacheAfterOutcome(s: PState, rel: string, h: string, o: Outcome, s': PState)
    requires s' == Apply(s, rel, h, o)
    ensures o.Registered? ==> CacheHit(s', rel, h)
    ensures o.Unregistered? ==> s'.registry == s.registry && s'.fileCache == s.fileCache && s'.nodes == s.nodes + o.items
  {
  }

  /**
   * A JavaScript file appends the plugin's nodes, module node first, and
   * registers each of them under its id.
   */
  lemma JavaScriptFileNodes(env: Env, s: PState, rel: string, isEntry: bool, s': PState)
    requires !Excluded(rel) && rel !in s.parsedFiles && rel in env.contents
    requires !CacheHit(s, rel, env.ctx.md5(env.contents[rel]))
    requires JsPlugin.CanParse(Lower(Suffix(rel)))
    requires s' == ParseFileStep(env, s, rel, isEntry)
    ensures s'.nodes == s.nodes + Items(JsPlugin.ParseNodes(env.ctx, rel, isEntry, Lookup(env.jsTrees, rel)))
    ensures s'.nodes[|s.nodes|] == NodeItem(JsPlugin.ModuleNode(env.ctx, rel, isEntry))
    ensures forall n :: n in JsPlugin.ParseNodes(env.ctx, rel, isEntry, Lookup(env.jsTrees, rel)) ==> n.id in s'.registry
  {
    PluginForExactly(Lower(Suffix(rel)));
    var ns := JsPlugin.ParseNodes(env.ctx, rel, isEntry, Lookup(env.jsTrees, rel));
    var h := env.ctx.md5(env.contents[rel]);
    assert FileOutcome(env, rel, isEntry).ns == ns;
    ApplyFrame(s.(parsedFiles := s.parsedFiles + {rel}), rel, h, FileOutcome(env, rel, isEntry), s');
    JsPlugin.ParseStartsWithModule(env.ctx, rel, isEntry, Lookup(env.jsTrees, rel));
    forall n | n in ns
      ensures n.id in s'.registry
    {
      RegisterAt(s.registry, ns, n.id);
    }
  }

  /** The outcome of a file, plugin by plugin. */
  lemma OutcomeByPlugin(env: Env, rel: string, isEntry: bool)
    ensures PluginFor(Lower(Suffix(rel))) == Some(JavaScriptLang) ==>
      FileOutcome(env, rel, isEntry) == JsOutcome(JsPlugin.ParseNodes(env.ctx, rel, isEntry, Lookup(env.jsTrees, rel)), Lookup(env.jsTrees, rel))
    ensures PluginFor(Lower(Suffix(rel))) == Some(JavaLang) ==>
      FileOutcome(env, rel, isEntry) == Registered(JavaPlugin.ParseNodes(env.ctx, rel, isEntry, Lookup(env.javaTrees, rel)), None)
    ensures PluginFor(Lower(Suffix(rel))) == Some(PythonLang) ==>
      var res := PythonPlugin.ParseResult(env.ctx, rel, isEntry, Lookup(env.pyTrees, rel));
      FileOutcome(env, rel, isEntry) == Unregistered([NodeListItem(res.0), SymbolsItem(res.1)])
    ensures PluginFor(Lower(Suffix(rel))).None? && Lower(Suffix(rel)) != ".html" ==>
      FileOutcome(env, rel, isEntry) == Registered([], None)
  {
  }

  /** An `.html` file is claimed by no plugin and yields its one template node. */
  lemma HtmlOutcome(env: Env, rel: string, isEntry: bool)
    requires Lower(Suffix(rel)) == ".html"
    ensures FileOutcome(env, rel, isEntry) == Registered([TemplateNode(env.ctx, rel, isEntry)], None)
  {
    PluginForExactly(Lower(Suffix(rel)));
  }

  /** Adding one node appends its entry and registers it. */
  lemma AddOne(s: PState, n: Node)
    ensures AddNodes(s, [n]) == s.(nodes := s.nodes + [NodeItem(n)], registry := s.registry[n.id := n])
  {
    assert Items([n]) == [NodeItem(n)];
    assert [n][..0] == [];
    assert Register(s.registry, []) == s.registry;
  }

  /** An HTML file, which no plugin claims, appends and registers exactly its Template node. */
  lemma HtmlFileTemplate(env: Env, s: PState, rel: string, isEntry: bool, s': PState)
    requires !Excluded(rel) && rel !in s.parsedFiles && rel in env.contents
    requires !CacheHit(s, rel, env.ctx.md5(env.contents[rel]))
    requires Lower(Suffix(rel)) == ".html"
    requires s' == ParseFileStep(env, s, rel, isEntry)
    ensures s'.nodes == s.nodes + [NodeItem(TemplateNode(env.ctx, rel, isEntry))]
    ensures s'.registry == s.registry[ParserId(env.ctx, rel, "template") := TemplateNode(env.ctx, rel, isEntry)]
  {
    var h := env.ctx.md5(env.contents[rel]);
    var s0 := s.(parsedFiles := s.parsedFiles + {rel});
    assert s' == Apply(s0, rel, h, FileOutcome(env, rel, isEntry));
    HtmlOutcome(env, rel, isEntry);
    ApplyOne(s0, rel, h, TemplateNode(env.ctx, rel, isEntry), s');
  }

  /** A registered outcome of one node appends and registers that node. */
  lemma ApplyOne(s: PState, rel: string, h: string, n: Node, s': PState)
    requires s' == Apply(s, rel, h, Registered([n], None))
    ensures s'.nodes == s.nodes + [NodeItem(n)] && s'.registry == s.registry[n.id := n]
  {
    AddOne(s, n);
  }

  /** After parsing a list of files, each readable, non-excluded one of them is in `parsed_files`. */
  lemma {:induction false} ParseAllMarksParsed(env: Env, s: PState, files: seq<string>, isEntry: bool)
    ensures s.parsedFiles <= ParseAll(env, s, files, isEntry).parsedFiles
    ensures forall f :: f in files && !Excluded(f) && f in env.contents ==> f in ParseAll(env, s, files, isEntry).parsedFiles
    decreases |files|
  {
    if files != [] {
      var init := files[..|files| - 1];
      ParseAllMarksParsed(env, s, init, isEntry);
      ParseFileFrame(env, ParseAll(env, s, init, isEntry), files[|files| - 1], isEntry, ParseAll(env, s, files, isEntry));
      assert files == init + [files[|files| - 1]];
    }
  }

  // ---------------------------------------------------------------------
  // `_parse_additional_files`

  const SweepLocations: seq<string> := ["src", "app", "lib", "components", "pages", "api", "server"]

  /** The directories the sweep does not descend into. */
  const SweepSkippedDirs: seq<string> := ["node_modules", "_pycache_", ".git", "__pycache__"]

  const ScriptExts: seq<string> := [".js", ".jsx", ".ts", ".tsx"]

  /** The suffixes swept for each project type. */
  function SweepExtensions(pt: ProjectType): seq<string>
  {
    match pt
    case ReactVite => ScriptExts
    case Angular => ScriptExts
    case ExpressNode => ScriptExts
    case Django => [".py"]
    case PythonApp => [".py"]
    case MavenJava => [".java"]
    case GradleJava => [".java"]
    case SpringBoot => [".java"]
    case Android => []
    case Unknown => []
  }

  /** The plugin of each project type's language. */
  function LanguagePlugin(pt: ProjectType): Option<Plugin>
  {
    match pt
    case ReactVite => Some(JavaScriptLang)
    case Angular => Some(JavaScriptLang)
    case ExpressNode => Some(JavaScriptLang)
    case Django => Some(PythonLang)
    case PythonApp => Some(PythonLang)
    case MavenJava => Some(JavaLang)
    case GradleJava => Some(JavaLang)
    case SpringBoot => Some(JavaLang)
    case Android => None
    case Unknown => None
  }

  /**
   * Every file the sweep selects for a project type goes to the plugin of
   * that type's language (so no swept file is an HTML file), and a type
   * with no language plugin selects none.
   */
  lemma SweptFilesGoToTheProjectPlugin(pt: ProjectType, file: string)
    requires Lower(Suffix(file)) in SweepExtensions(pt)
    ensures LanguagePlugin(pt).Some? && PluginFor(Lower(Suffix(file))) == LanguagePlugin(pt)
  {
    LowerIdempotent(Suffix(file));
    SweptExtensionPlugin(pt, Lower(Suffix(file)));
  }

  /** An extension whose lower-cased form is swept for a project type is claimed by that type's plugin. */
  lemma SweptExtensionPlugin(pt: ProjectType, x: string)
    requires Lower(x) in SweepExtensions(pt)
    ensures LanguagePlugin(pt).Some? && PluginFor(x) == LanguagePlugin(pt)
  {
    match pt
    case ReactVite | Angular | ExpressNode =>
      assert Claims(JavaScriptLang, x);
      ClaimedBy(JavaScriptLang, x);
    case Django | PythonApp =>
      assert Claims(PythonLang, x);
      ClaimedBy(PythonLang, x);
    case MavenJava | GradleJava | SpringBoot =>
      assert Claims(JavaLang, x);
      ClaimedBy(JavaLang, x);
  }

  /** The plugin claiming an extension is the one chosen for it. */
  lemma ClaimedBy(p: Plugin, e: string)
    requires Claims(p, e)
    ensures PluginFor(e) == Some(p)
  {
    PluginForExactly(e);
  }

  /** Some directory of `rel` at depth `from` or below is one of `dirs`. */
  predicate BelowDirIn(rel: string, dirs: seq<string>, from: nat)
  {
    exists i :: from <= i < |Split(rel)| - 1 && Split(rel)[i] in dirs
  }

  /** `rel` is visited by the sweep of `loc` and has one of `exts` (compared lower-cased). */
  predicate Swept(rel: string, loc: string, exts: seq<string>)
  {
    StartsWith(rel, loc + "/") && !BelowDirIn(rel, SweepSkippedDirs, 1) && Lower(Suffix(rel)) in exts
  }

  /** The files of `walk` the sweep of one location parses, in walk order. */
  function SweepLocation(walk: seq<string>, loc: string, exts: seq<string>): (r: seq<string>)
    ensures forall f :: f in r <==> f in walk && Swept(f, loc, exts)
    decreases |walk|
  {
    if walk == [] then []
    else
      var prev := SweepLocation(walk[..|walk| - 1], loc, exts);
      var f := walk[|walk| - 1];
      assert forall g :: g in walk <==> g in walk[..|walk| - 1] || g == f;
      if Swept(f, loc, exts) then prev + [f] else prev
  }

  /** One more walked file: the sweep of one location takes it exactly when `Swept` selects it. */
  lemma SweepStep(walk: seq<string>, loc: string, exts: seq<string>, j: nat)
    requires j < |walk|
    ensures SweepLocation(walk[..j + 1], loc, exts) ==
      if Swept(walk[j], loc, exts) then SweepLocation(walk[..j], loc, exts) + [walk[j]] else SweepLocation(walk[..j], loc, exts)
  {
    assert walk[..j + 1][..j] == walk[..j];
  }

  /** The sweeps of the locations `locs`, one after the other. */
  function SweepEach(walk: seq<string>, locs: seq<string>, exts: seq<string>): (r: seq<string>)
    ensures forall f :: f in r <==> f in walk && exists i :: 0 <= i < |locs| && Swept(f, locs[i], exts)
    decreases |locs|
  {
    if locs == [] then []
    else
      var r := SweepEach(walk, locs[..|locs| - 1], exts) + SweepLocation(walk, locs[|locs| - 1], exts);
      assert forall i :: 0 <= i < |locs| - 1 ==> locs[..|locs| - 1][i] == locs[i];
      r
  }

  /**
   * The files `_parse_additional_files` hands to `_parse_file`, given
   * every file of the project in the order `os.walk` visits them.
   */
  function SweepFiles(pt: ProjectType, walk: seq<string>): seq<string>
  {
    SweepEach(walk, SweepLocations, SweepExtensions(pt))
  }

  /**
   * A file is swept iff it lies below one of the locations, not inside a
   * skipped directory, with a suffix swept for the project type.
   */
  lemma SweepFilesExactly(pt: ProjectType, walk: seq<string>, f: string)
    ensures f in SweepFiles(pt, walk) <==>
      f in walk && Lower(Suffix(f)) in SweepExtensions(pt) && !BelowDirIn(f, SweepSkippedDirs, 1)
      && exists i :: 0 <= i < |SweepLocations| && StartsWith(f, SweepLocations[i] + "/")
  {
  }

  /** A project type without a language plugin sweeps no file. */
  lemma NoPluginNoSweep(pt: ProjectType, walk: seq<string>)
    requires LanguagePlugin(pt).None?
    ensures SweepFiles(pt, walk) == []
  {
    assert SweepExtensions(pt) == [];
    SweepEachNone(walk, SweepLocations);
  }

  lemma {:induction false} SweepLocationNone(walk: seq<string>, loc: string)
    ensures SweepLocation(walk, loc, []) == []
    decreases |walk|
  {
    if walk != [] {
      SweepLocationNone(walk[..|walk| - 1], loc);
    }
  }

  lemma {:induction false} SweepEachNone(walk: seq<string>, locs: seq<string>)
    ensures SweepEach(walk, locs, []) == []
    decreases |locs|
  {
    if locs != [] {
      SweepEachNone(walk, locs[..|locs| - 1]);
      SweepLocationNone(walk, locs[|locs| - 1]);
    }
  }

  // ---------------------------------------------------------------------
  // `_build_module_index`

  /** The directories the index walk does not descend into. */
  const IndexSkippedDirs: seq<string> := [".git", "node_modules", "__pycache__", "build", "dist", "target"]

  /** A file below one of the directories the index walk prunes. */
  predicate IndexSkipped(rel: string)
  {
    BelowDirIn(rel, IndexSkippedDirs, 0)
  }

  /** The files of the project walk the index walk visits. */
  function IndexedFiles(walk: seq<string>): (r: seq<string>)
    ensures forall f :: f in r <==> f in walk && !IndexSkipped(f)
    decreases |walk|
  {
    if walk == [] then []
    else
      var prev := IndexedFiles(walk[..|walk| - 1]);
      var f := walk[|walk| - 1];
      assert forall g :: g in walk <==> g in walk[..|walk| - 1] || g == f;
      if IndexSkipped(f) then prev else prev + [f]
  }

  /** The module index after `_build_module_index` over the project walk `walk`. */
  function BuildIndex(d: ODict<string>, walk: seq<string>): ODict<string>
  {
    WriteAll(d, IndexWrites(IndexedFiles(walk)))
  }

}
