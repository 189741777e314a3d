/**
 * `LanguageParser` as an object: its fields are updated in place by
 * `_parse_file`, `_build_module_index`, `_add_import_edge`, the capture
 * processors and `_analyze_relationships`, and each method is proved to
 * leave exactly the state the matching step function of `ParseState`,
 * `ParserCaptures` or this module describes.
 */
module Parser {
  import opened Wrappers
  import opened Text
  import opened Paths
  import opened OrderedDict
  import opened Graph
  import opened Classifier
  import opened Resolver
  import opened ParseState
  import opened ParserCaptures
  import opened Linking
  import JsPlugin
  import JavaPlugin
  import PythonPlugin

  // ---------------------------------------------------------------------
  // `_analyze_relationships` and `parse_project` as values

  /** Every entry of `self.nodes` is a node (no Python tuple halves were appended). */
  predicate AllNodes(es: seq<Entry>)
  {
    forall i :: 0 <= i < |es| ==> es[i].NodeItem?
  }

  /** The nodes of a list of node entries. */
  function NodesOf(es: seq<Entry>): (r: seq<Node>)
    requires AllNodes(es)
    ensures |r| == |es| && forall i :: 0 <= i < |es| ==> es[i] == NodeItem(r[i])
  {
    seq(|es|, i requires 0 <= i < |es| => es[i].node)
  }

  /** The edges `_analyze_relationships` appends: RENDERS, then JavaScript CALLS, then Python CALLS. */
  function RelationEdges(env: Env, ns: seq<Node>, fs: ODict<FileSymbols>): seq<Edge>
  {
    RendersEdges(ns, fs) + ParserCallEdges(ns, env.jsCalls, ScriptScope) + ParserCallEdges(ns, env.pyCalls, PythonScope)
  }

  /**
   * `_analyze_relationships()`: the new state and whether it raised.  With
   * an entry that is not a node among the nodes, no edge is appended: the
   * Renders loop skips files without JSX names and, for the first file that
   * has some, raises reading `n.file` of that entry; otherwise the
   * comprehension over the nodes inside `_analyze_js_calls` and
   * `_analyze_py_calls` raises on it and is caught there, and the outer
   * Calls loop then raises, uncaught, when it reads `n.file` of the entry.
   */
  function RelationsStep(env: Env, s: PState): (PState, bool)
  {
    if AllNodes(s.nodes) then (s.(edges := s.edges + RelationEdges(env, NodesOf(s.nodes), s.fileSymbols)), false)
    else (s, true)
  }

  /**
   * `str((project_path / entry).relative_to(project_path))`: the
   * project-relative path of an entry value as pathlib spells it, with
   * empty and `.` components and a trailing `/` dropped.
   */
  function EntryPath(entry: string): string
  {
    Render(Segments(entry))
  }

  /**
   * `file_path.exists() and file_path.is_file()` for an entry value: it
   * names a file below the project root (the root itself is a directory).
   */
  predicate EntryExists(existing: set<string>, entry: string)
  {
    Segments(entry) != [] && EntryPath(entry) in existing
  }

  /** The project-relative paths of the entry points that exist, in the order given. */
  function EntryFiles(existing: set<string>, entries: seq<string>): (r: seq<string>)
    ensures |r| <= |entries|
    ensures forall k :: 0 <= k < |r| ==> r[k] in existing
    decreases |entries|
  {
    if entries == [] then []
    else
      var prev := EntryFiles(existing, entries[..|entries| - 1]);
      var e := entries[|entries| - 1];
      if EntryExists(existing, e) then prev + [EntryPath(e)] else prev
  }

  /**
   * `parse_project(entry_points, project_type)`: index the project, parse
   * the existing entry points as entries, sweep the project type's
   * locations, then analyse relationships; also whether the analysis raised.
   */
  function ParseProjectStep(env: Env, s: PState, entries: seq<string>, pt: ProjectType, walk: seq<string>): (PState, bool)
  {
    var s1 := s.(moduleIndex := BuildIndex(s.moduleIndex, walk));
    var s2 := ParseAll(env, s1, EntryFiles(env.existing, entries), true);
    var s3 := ParseAll(env, s2, SweepFiles(pt, walk), false);
    RelationsStep(env, s3)
  }

  /** Parsing a concatenation is parsing one part after the other. */
  lemma {:induction false} ParseAllAppend(env: Env, s: PState, a: seq<string>, b: seq<string>, isEntry: bool)
    ensures ParseAll(env, s, a + b, isEntry) == ParseAll(env, ParseAll(env, s, a, isEntry), b, isEntry)
    decreases |b|
  {
    if b == [] {
      assert a + b == a;
    } else {
      var init := b[..|b| - 1];
      ParseAllAppend(env, s, a, init, isEntry);
      assert (a + b)[..|a + b| - 1] == a + init;
    }
  }

  /** With an entry that is not a node the analysis raises and adds no edge. */
  lemma ForeignEntryAddsNoEdges(env: Env, s: PState)
    requires exists i :: 0 <= i < |s.nodes| && !s.nodes[i].NodeItem?
    ensures RelationsStep(env, s) == (s, true)
  {
  }

  /**
   * Otherwise it only appends edges: every RENDERS edge first, then the
   * CALLS edges, and each appended edge is one of the pairs `Linking`
   * characterises.
   */
  lemma RelationsOnlyAppendEdges(env: Env, s: PState)
    requires AllNodes(s.nodes)
    ensures var (s', raised) := RelationsStep(env, s);
      && !raised
      && s' == s.(edges := s'.edges)
      && |s.edges| <= |s'.edges| && s'.edges[..|s.edges|] == s.edges
    ensures var ns := NodesOf(s.nodes);
      var added := RelationEdges(env, ns, s.fileSymbols);
      var r := |RendersEdges(ns, s.fileSymbols)|;
      && (forall i :: 0 <= i < r ==> added[i].kind == Renders)
      && (forall i :: r <= i < |added| ==> added[i].kind == Calls)
  {
    var ns := NodesOf(s.nodes);
    var added := RelationEdges(env, ns, s.fileSymbols);
    var re := RendersEdges(ns, s.fileSymbols);
    var js := ParserCallEdges(ns, env.jsCalls, ScriptScope);
    var py := ParserCallEdges(ns, env.pyCalls, PythonScope);
    RendersExactly(ns, s.fileSymbols);
    ParserCallsExactly(ns, env.jsCalls, ScriptScope);
    ParserCallsExactly(ns, env.pyCalls, PythonScope);
    forall i | 0 <= i < |re| ensures added[i].kind == Renders {
      assert added[i] == re[i] && re[i] in re;
    }
    forall i | |re| <= i < |added| ensures added[i].kind == Calls {
      if i < |re| + |js| {
        assert added[i] == js[i - |re|] && js[i - |re|] in js;
      } else {
        assert added[i] == py[i - |re| - |js|] && py[i - |re| - |js|] in py;
      }
    }
  }

  /**
   * A Python file extracted on a cache miss leaves a tuple half in
   * `self.nodes`, so the analysis of any later state that keeps it raises.
   */
  lemma PythonFileMakesAnalysisRaise(env: Env, s: PState, rel: string, isEntry: bool)
    requires PluginFor(Lower(Suffix(rel))) == Some(PythonLang)
    requires !Excluded(rel) && rel !in s.parsedFiles && rel in env.contents
    requires !CacheHit(s, rel, env.ctx.md5(env.contents[rel]))
    ensures RelationsStep(env, ParseFileStep(env, s, rel, isEntry)).1
  {
    var s' := ParseFileStep(env, s, rel, isEntry);
    CacheWrittenUnlessPython(env, s, rel, isEntry, s');
    assert !s'.nodes[|s.nodes|].NodeItem?;
  }

  // ---------------------------------------------------------------------
  // Loops that read no parser field

  /** `push_with_exts(p)`: `p` itself when it has a suffix, else each suffix, then each index file. */
  method PushCandidates(c: Cand) returns (cs: seq<Cand>)
    ensures cs == PushWithExts(c)
  {
    if HasSuffix(c) {
      return [c];
    }
    cs := [];
    var i := 0;
    while i < |ResolveExts|
      invariant 0 <= i <= |ResolveExts|
      invariant cs == WithEach(c, ResolveExts[..i])
    {
      assert ResolveExts[..i + 1][..i] == ResolveExts[..i];
      cs := cs + [WithSuffix(c, ResolveExts[i])];
      i := i + 1;
    }
    assert ResolveExts[..i] == ResolveExts;
    cs := cs + ChildEach(c, IndexFiles);
  }

  /** `for cand in candidates: if cand.exists(): return ...`. */
  method FirstExistingLoop(existing: set<string>, cands: seq<Cand>) returns (r: Option<string>)
    ensures r == FirstExisting(existing, cands)
  {
    var i := 0;
    while i < |cands|
      invariant 0 <= i <= |cands|
      invariant FirstExisting(existing, cands) == FirstExisting(existing, cands[i..])
    {
      assert cands[i..][0] == cands[i];
      if FileExists(existing, cands[i]) {
        return Some(Render(cands[i].segs));
      }
      assert cands[i..][1..] == cands[i + 1..];
      i := i + 1;
    }
    return None;
  }

  /** The candidates of a bare specifier under each import root, in order. */
  method RootCandidatesLoop(spec: string) returns (cands: seq<Cand>)
    ensures cands == RootCandidates(ImportRoots, spec)
  {
    cands := [];
    var i := 0;
    while i < |ImportRoots|
      invariant 0 <= i <= |ImportRoots|
      invariant cands == RootCandidates(ImportRoots[..i], spec)
    {
      assert ImportRoots[..i + 1][..i] == ImportRoots[..i];
      var more := PushCandidates(RootJoin(ImportRoots[i], spec));
      cands := cands + more;
      i := i + 1;
    }
    assert ImportRoots[..i] == ImportRoots;
  }

  /** `for k, rel in self.module_index.items(): if k.endswith('/' + norm) or k == norm: return rel`. */
  method SuffixMatchLoop(d: ODict<string>, norm: string) returns (r: Option<string>)
    ensures r == SuffixMatch(d, norm)
  {
    var i := 0;
    while i < |d.keys|
      invariant 0 <= i <= |d.keys|
      invariant FirstMatchingKey(d.keys, d.m, norm) == FirstMatchingKey(d.keys[i..], d.m, norm)
    {
      var k := d.keys[i];
      assert d.keys[i..][0] == k;
      if k in d.m && KeyMatches(k, norm) {
        return Some(d.m[k]);
      }
      assert d.keys[i..][1..] == d.keys[i + 1..];
      i := i + 1;
    }
    return None;
  }

  /** The JSX loop of `_process_js_captures`. */
  method UpperJsxLoop(names: seq<string>) returns (jsx: seq<string>)
    ensures jsx == UpperJsx(names)
  {
    jsx := [];
    var i := 0;
    while i < |names|
      invariant 0 <= i <= |names|
      invariant jsx == UpperJsx(names[..i])
    {
      var name := names[i];
      assert names[..i + 1][..i] == names[..i];
      if name != [] && IsUpper(name[0]) {
        jsx := jsx + [name];
      }
      i := i + 1;
    }
    assert names[..i] == names;
  }

  lemma ParseAllSnoc(env: Env, s: PState, files: seq<string>, f: string, isEntry: bool)
    ensures ParseAll(env, s, files + [f], isEntry) == ParseFileStep(env, ParseAll(env, s, files, isEntry), f, isEntry)
  {
    assert (files + [f])[..|files|] == files;
  }

  /** Parsing one more file of a list is one more `_parse_file` step. */
  lemma ParseAllStep(env: Env, s: PState, files: seq<string>, i: nat, isEntry: bool)
    requires i < |files|
    ensures ParseAll(env, s, files[..i + 1], isEntry) == ParseFileStep(env, ParseAll(env, s, files[..i], isEntry), files[i], isEntry)
  {
    assert files[..i + 1][..i] == files[..i];
  }

  /**
   * The entry paths kept are exactly the paths of the entries that exist:
   * every existing entry's path is kept, and every kept path is one.
   */
  lemma {:induction false} EntryFilesExactly(existing: set<string>, entries: seq<string>)
    ensures forall i :: 0 <= i < |entries| && EntryExists(existing, entries[i]) ==> EntryPath(entries[i]) in EntryFiles(existing, entries)
    ensures forall f :: f in EntryFiles(existing, entries) ==>
      exists i :: 0 <= i < |entries| && EntryExists(existing, entries[i]) && f == EntryPath(entries[i])
    decreases |entries|
  {
    if entries != [] {
      var init, e := entries[..|entries| - 1], entries[|entries| - 1];
      EntryFilesExactly(existing, init);
      assert forall i :: 0 <= i < |init| ==> init[i] == entries[i];
      assert EntryFiles(existing, entries) == if EntryExists(existing, e) then EntryFiles(existing, init) + [EntryPath(e)] else EntryFiles(existing, init);
    }
  }

  /**
   * An entry with a leading `./`, such as `./src/main.tsx`, names the same
   * file as the entry without it, and is parsed as an entry exactly when
   * that one would be.
   */
  lemma DotSlashEntry(existing: set<string>, entry: string)
    ensures EntryPath("./" + entry) == EntryPath(entry)
    ensures EntryExists(existing, "./" + entry) <==> EntryExists(existing, entry)
  {
    DotSlashSegments(entry);
  }

  /** A trailing `/` on an entry, such as `src/main.tsx/`, names the same file. */
  lemma TrailingSlashEntry(existing: set<string>, entry: string)
    ensures EntryPath(entry + "/") == EntryPath(entry)
    ensures EntryExists(existing, entry + "/") <==> EntryExists(existing, entry)
  {
    TrailingSlashSegments(entry);
  }

  /** An entry already spelled as pathlib spells it is its own path. */
  lemma CleanEntryPath(entry: string)
    requires forall i :: 0 <= i < |Split(entry)| ==> Split(entry)[i] != "" && Split(entry)[i] != "."
    ensures EntryPath(entry) == entry
  {
    DropDotsClean(Split(entry));
    JoinSplit(entry);
  }

  /** One more entry point: its path is kept exactly when it exists. */
  lemma EntryStep(existing: set<string>, entries: seq<string>, i: nat)
    requires i < |entries|
    ensures EntryFiles(existing, entries[..i + 1]) ==
      if EntryExists(existing, entries[i]) then EntryFiles(existing, entries[..i]) + [EntryPath(entries[i])] else EntryFiles(existing, entries[..i])
  {
    assert entries[..i + 1][..i] == entries[..i];
  }

  lemma AddImportsSnoc(env: Env, s: PState, from: string, specs: seq<string>, spec: string)
    ensures AddImports(env, s, from, specs + [spec]) == AddImport(env, AddImports(env, s, from, specs), from, spec)
  {
    assert (specs + [spec])[..|specs|] == specs;
  }

  lemma ImportSpecsSnoc(raws: seq<string>, i: nat)
    requires i < |raws|
    ensures ImportSpecs(raws[..i + 1]) ==
      ImportSpecs(raws[..i]) + (if StripLiteral(raws[i]) == [] then [] else [StripLiteral(raws[i])])
  {
    assert raws[..i + 1][..i] == raws[..i];
    assert Stripped(raws[..i + 1])[..i] == Stripped(raws[..i]);
  }

  lemma AddNodesAppend(s: PState, a: seq<Node>, b: seq<Node>)
    ensures AddNodes(AddNodes(s, a), b) == AddNodes(s, a + b)
    decreases |b|
  {
    if b == [] {
      assert a + b == a;
      assert Items(b) == [];
    } else {
      var init := b[..|b| - 1];
      AddNodesAppend(s, a, init);
      AddNodesSnoc(AddNodes(s, a), init, b[|b| - 1]);
      assert a + b == (a + init) + [b[|b| - 1]];
      AddNodesSnoc(s, a + init, b[|b| - 1]);
      assert init + [b[|b| - 1]] == b;
    }
  }

  lemma IndexStep(d: ODict<string>, walk: seq<string>, i: nat)
    requires i < |walk|
    ensures BuildIndex(d, walk[..i + 1]) ==
      if IndexSkipped(walk[i]) then BuildIndex(d, walk[..i]) else PutAll(BuildIndex(d, walk[..i]), KeysFor(walk[i]), walk[i])
  {
    assert walk[..i + 1][..i] == walk[..i];
    var fs := IndexedFiles(walk[..i]);
    if !IndexSkipped(walk[i]) {
      assert IndexedFiles(walk[..i + 1]) == fs + [walk[i]];
      assert (fs + [walk[i]])[..|fs|] == fs;
      var ws := IndexWrites(fs + [walk[i]]);
      assert ws[..|ws| - 1] == IndexWrites(fs);
    }
  }

  /** One step of the import loop. */
  lemma LinkStep(env: Env, s0: PState, rel: string, raws: seq<string>, i: nat, s: PState)
    requires i < |raws| && s == AddImports(env, s0, rel, ImportSpecs(raws[..i]))
    ensures AddImports(env, s0, rel, ImportSpecs(raws[..i + 1])) ==
      if StripLiteral(raws[i]) == [] then s else AddImport(env, s, rel, StripLiteral(raws[i]))
  {
    ImportSpecsSnoc(raws, i);
    if StripLiteral(raws[i]) != [] {
      AddImportsSnoc(env, s0, rel, ImportSpecs(raws[..i]), StripLiteral(raws[i]));
    } else {
      assert ImportSpecs(raws[..i + 1]) == ImportSpecs(raws[..i]);
    }
  }

  /** One step of a declaration loop. */
  lemma DeclStep(ctx: Ctx, s0: PState, rel: string, isEntry: bool, rule: KindRule, names: seq<string>, i: nat, s: PState)
    requires i < |names| && s == AddNodes(s0, DeclNodes(ctx, rel, isEntry, rule, names[..i]))
    ensures names[..i + 1] == names[..i] + [names[i]]
    ensures AddNodes(s0, DeclNodes(ctx, rel, isEntry, rule, names[..i + 1])) ==
      if names[i] == [] then s
      else
        var n := ParserNode(ctx, KindFor(rule, names[i]), rel, names[i], isEntry);
        s.(nodes := s.nodes + [NodeItem(n)], registry := s.registry[n.id := n])
  {
    assert names[..i + 1] == names[..i] + [names[i]];
    DeclNodesSnoc(ctx, rel, isEntry, rule, names[..i], names[i]);
    if names[i] != [] {
      AddNodesSnoc(s0, DeclNodes(ctx, rel, isEntry, rule, names[..i]), ParserNode(ctx, KindFor(rule, names[i]), rel, names[i], isEntry));
    }
  }

  /** One step of the endpoint loop on the paths it keeps. */
  lemma PathsStep(pairs: seq<(string, string)>, i: nat)
    requires i < |pairs|
    ensures JavaPlugin.EndpointPaths(pairs[..i + 1]) ==
      if JavaPlugin.IsEndpointPair(pairs[i])
      then JavaPlugin.EndpointPaths(pairs[..i]) + [StripLiteral(pairs[i].1)]
      else JavaPlugin.EndpointPaths(pairs[..i])
  {
    assert pairs[..i + 1][..i] == pairs[..i];
  }

  lemma EndpointsSnoc(ctx: Ctx, s0: PState, rel: string, paths: seq<string>, path: string)
    ensures AddEndpoints(ctx, s0, rel, paths + [path]) == AddIfMissing(AddEndpoints(ctx, s0, rel, paths), ParserEndpointNode(ctx, rel, path))
  {
    assert (paths + [path])[..|paths|] == paths;
  }

  /** Writing keys in two batches is writing them in one. */
  lemma {:induction false} PutAllAppend(d: ODict<string>, a: seq<string>, b: seq<string>, v: string)
    ensures PutAll(d, a + b, v) == PutAll(PutAll(d, a, v), b, v)
    decreases |b|
  {
    if b == [] {
      assert a + b == a;
    } else {
      var init := b[..|b| - 1];
      PutAllAppend(d, a, init, v);
      assert (a + b)[..|a + b| - 1] == a + init;
    }
  }

  lemma RootKeysStep(rel: string, roots: seq<string>, k: nat)
    requires k < |roots|
    ensures RootKeys(rel, roots[..k + 1]) == RootKeys(rel, roots[..k]) + RootKey(rel, roots[k])
  {
    assert roots[..k + 1][..k] == roots[..k];
  }

  /** The first one or two keys `_build_module_index` writes for an indexed file. */
  lemma FirstKeys(d: ODict<string>, rel: string)
    ensures PutAll(d, [NormalizeModuleKey(rel)] + FolderKey(rel), rel) ==
      if Stem(rel) == "index" && !IsTopLevel(rel)
      then Put(Put(d, NormalizeModuleKey(rel), rel), NormalizeModuleKey(Parent(rel)), rel)
      else Put(d, NormalizeModuleKey(rel), rel)
  {
    var n := NormalizeModuleKey(rel);
    if Stem(rel) == "index" && !IsTopLevel(rel) {
      var f := NormalizeModuleKey(Parent(rel));
      assert FolderKey(rel) == [f];
      PutAllTwo(d, n, f, rel);
    } else {
      assert FolderKey(rel) == [];
      PutAllOne(d, n, rel);
    }
  }

  lemma PutAllOne(d: ODict<string>, k: string, v: string)
    ensures PutAll(d, [k] + [], v) == Put(d, k, v)
  {
    assert [k] + [] == [k];
    assert [k][..0] == [];
  }

  lemma PutAllTwo(d: ODict<string>, k1: string, k2: string, v: string)
    ensures PutAll(d, [k1] + [k2], v) == Put(Put(d, k1, v), k2, v)
  {
    var ks := [k1] + [k2];
    assert ks[..1] == [k1] && ks[1] == k2;
    assert PutAll(d, ks, v) == Put(PutAll(d, [k1], v), k2, v);
    assert [k1][..0] == [];
    assert PutAll(d, [k1], v) == Put(d, k1, v);
  }

  lemma PutAllSnoc(d: ODict<string>, ks: seq<string>, k: string, v: string)
    ensures PutAll(d, ks + [k], v) == Put(PutAll(d, ks, v), k, v)
  {
    assert (ks + [k])[..|ks|] == ks;
  }

  // ---------------------------------------------------------------------
  // The parser object

  class LanguageParser {
    var nodes: seq<Entry>
    var edges: seq<Edge>
    /** `node_registry`. */
    var registry: map<string, Node>
    var fileSymbols: ODict<FileSymbols>
    var moduleIndex: ODict<string>
    var parsedFiles: set<string>
    /** `file_cache`: the digest of each file's text when it was last extracted. */
    var fileCache: map<string, string>
    /** The outside world the parser reads. */
    const env: Env
    /** The JavaScript plugin; the Java and Python plugins keep no state. */
    const jsPlugin: JsPlugin.JavaScriptPlugin

    /** The fields as a `PState`. */
    function State(): PState
      reads this, jsPlugin
    {
      PState(nodes, edges, registry, fileSymbols, moduleIndex, parsedFiles, fileCache, jsPlugin.fileSymbols)
    }

    /** The plugin was created with the parser's own overrides and digest. */
    ghost predicate Valid()
    {
      jsPlugin.ctx == env.ctx
    }

    constructor (env: Env)
      ensures State() == Initial() && this.env == env && Valid()
      ensures fresh(jsPlugin)
    {
      this.env := env;
      nodes := [];
      edges := [];
      registry := map[];
      fileSymbols := Empty();
      moduleIndex := Empty();
      parsedFiles := {};
      fileCache := map[];
      jsPlugin := new JsPlugin.JavaScriptPlugin(env.ctx);
    }

    /** `for node in nodes: self.node_registry[node.id] = node`. */
    method RegisterAll(ns: seq<Node>)
      modifies this`registry
      ensures State() == old(State()).(registry := Register(old(registry), ns))
    {
      var i := 0;
      while i < |ns|
        invariant 0 <= i <= |ns|
        invariant registry == Register(old(registry), ns[..i])
      {
        assert ns[..i + 1][..i] == ns[..i];
        registry := registry[ns[i].id := ns[i]];
        i := i + 1;
      }
      assert ns[..i] == ns;
    }

    /** `_parse_html_file`: a Template node for the file, appended and registered. */
    method ParseHtml(rel: string, isEntry: bool)
      modifies this`nodes, this`registry
      ensures State() == AddNodes(old(State()), [TemplateNode(env.ctx, rel, isEntry)])
    {
      var n := TemplateNode(env.ctx, rel, isEntry);
      AddOne(State(), n);
      nodes := nodes + [NodeItem(n)];
      registry := registry[n.id := n];
    }

    /**
     * `_parse_file(file_path, is_entry)` for the project-relative path
     * `rel`; `env.contents` holds the text of each file that reads.
     */
    method ParseFile(rel: string, isEntry: bool)
      requires Valid()
      modifies this, jsPlugin
      ensures State() == ParseFileStep(env, old(State()), rel, isEntry)
    {
      if Excluded(rel) || rel in parsedFiles || rel !in env.contents {
        return;
      }
      var h := env.ctx.md5(env.contents[rel]);
      if rel in fileCache && fileCache[rel] == h {
        parsedFiles := parsedFiles + {rel};
        return;
      }
      parsedFiles := parsedFiles + {rel};
      assert ParseFileStep(env, old(State()), rel, isEntry) == Apply(State(), rel, h, FileOutcome(env, rel, isEntry));
      var plugin := PluginFor(Lower(Suffix(rel)));
      if plugin == Some(JavaScriptLang) {
        ExtractScript(rel, isEntry, h);
      } else if plugin == Some(JavaLang) {
        ExtractJava(rel, isEntry, h);
      } else if plugin == Some(PythonLang) {
        ExtractPython(rel, isEntry, h);
      } else if Lower(Suffix(rel)) == ".html" {
        ExtractHtml(rel, isEntry, h);
      } else {
        ExtractNothing(rel, isEntry, h);
      }
    }

    /** The JavaScript plugin's branch of `_parse_file`: its nodes are appended and registered, then the digest cached. */
    method ExtractScript(rel: string, isEntry: bool, h: string)
      requires Valid() && PluginFor(Lower(Suffix(rel))) == Some(JavaScriptLang)
      modifies this`nodes, this`registry, this`fileCache, jsPlugin
      ensures State() == Apply(old(State()), rel, h, FileOutcome(env, rel, isEntry))
    {
      ghost var s0 := State();
      var syntax := Lookup(env.jsTrees, rel);
      var ns := jsPlugin.Parse(rel, isEntry, syntax);
      nodes := nodes + Items(ns);
      RegisterAll(ns);
      fileCache := fileCache[rel := h];
      OutcomeByPlugin(env, rel, isEntry);
      ApplyRegistered(s0, rel, h, ns, JsOutcome(ns, syntax).jsEntry);
    }

    /** The Java plugin's branch of `_parse_file`. */
    method ExtractJava(rel: string, isEntry: bool, h: string)
      requires PluginFor(Lower(Suffix(rel))) == Some(JavaLang)
      modifies this`nodes, this`registry, this`fileCache
      ensures State() == Apply(old(State()), rel, h, FileOutcome(env, rel, isEntry))
    {
      ghost var s0 := State();
      var ns := JavaPlugin.Parse(env.ctx, rel, isEntry, Lookup(env.javaTrees, rel));
      nodes := nodes + Items(ns);
      RegisterAll(ns);
      fileCache := fileCache[rel := h];
      OutcomeByPlugin(env, rel, isEntry);
      ApplyRegistered(s0, rel, h, ns, None);
    }

    /**
     * The Python plugin's branch of `_parse_file`: `extend` appends both
     * halves of the returned tuple, registering the first one fails, and
     * the handler skips the cache write.
     */
    method ExtractPython(rel: string, isEntry: bool, h: string)
      requires PluginFor(Lower(Suffix(rel))) == Some(PythonLang)
      modifies this`nodes
      ensures State() == Apply(old(State()), rel, h, FileOutcome(env, rel, isEntry))
    {
      var ns, symbols := PythonPlugin.Parse(env.ctx, rel, isEntry, Lookup(env.pyTrees, rel));
      nodes := nodes + [NodeListItem(ns), SymbolsItem(symbols)];
      OutcomeByPlugin(env, rel, isEntry);
    }

    /** An HTML file, which no plugin claims: its Template node is appended and registered, then the digest cached. */
    method ExtractHtml(rel: string, isEntry: bool, h: string)
      requires Lower(Suffix(rel)) == ".html"
      modifies this`nodes, this`registry, this`fileCache
      ensures State() == Apply(old(State()), rel, h, FileOutcome(env, rel, isEntry))
    {
      HtmlOutcome(env, rel, isEntry);
      ApplyRegistered(State(), rel, h, [TemplateNode(env.ctx, rel, isEntry)], None);
      ParseHtml(rel, isEntry);
      fileCache := fileCache[rel := h];
    }

    /** A file no plugin claims and that is not HTML: nothing is extracted, the digest is cached. */
    method ExtractNothing(rel: string, isEntry: bool, h: string)
      requires PluginFor(Lower(Suffix(rel))).None? && Lower(Suffix(rel)) != ".html"
      modifies this`fileCache
      ensures State() == Apply(old(State()), rel, h, FileOutcome(env, rel, isEntry))
    {
      OutcomeByPlugin(env, rel, isEntry);
      ApplyRegistered(State(), rel, h, [], None);
      assert Items([]) == [];
      fileCache := fileCache[rel := h];
    }

    /** `_parse_file` on each of `files`, in order. */
    method ParseFiles(files: seq<string>, isEntry: bool)
      requires Valid()
      modifies this, jsPlugin
      ensures State() == ParseAll(env, old(State()), files, isEntry)
    {
      var i := 0;
      while i < |files|
        invariant 0 <= i <= |files|
        invariant State() == ParseAll(env, old(State()), files[..i], isEntry)
      {
        ParseAllStep(env, old(State()), files, i, isEntry);
        ParseFile(files[i], isEntry);
        i := i + 1;
      }
      assert files[..i] == files;
    }

    /** Append and register `n` unless its id is registered. */
    method AddIfMissingNode(n: Node)
      modifies this`nodes, this`registry
      ensures State() == AddIfMissing(old(State()), n)
    {
      if n.id !in registry {
        nodes := nodes + [NodeItem(n)];
        registry := registry[n.id := n];
      }
    }

    /** The existing entry points, in order, parsed as entries. */
    method ParseEntries(entries: seq<string>)
      requires Valid()
      modifies this, jsPlugin
      ensures State() == ParseAll(env, old(State()), EntryFiles(env.existing, entries), true)
    {
      var i := 0;
      while i < |entries|
        invariant 0 <= i <= |entries|
        invariant State() == ParseAll(env, old(State()), EntryFiles(env.existing, entries[..i]), true)
      {
        EntryStep(env.existing, entries, i);
        if EntryExists(env.existing, entries[i]) {
          var rel := EntryPath(entries[i]);
          ParseAllSnoc(env, old(State()), EntryFiles(env.existing, entries[..i]), rel, true);
          ParseFile(rel, true);
        }
        i := i + 1;
      }
      assert entries[..i] == entries;
    }

    /** The sweep of one location: every walked file below it that `Swept` selects. */
    method SweepLocationLoop(walk: seq<string>, loc: string, exts: seq<string>)
      requires Valid()
      modifies this, jsPlugin
      ensures State() == ParseAll(env, old(State()), SweepLocation(walk, loc, exts), false)
    {
      var j := 0;
      while j < |walk|
        invariant 0 <= j <= |walk|
        invariant State() == ParseAll(env, old(State()), SweepLocation(walk[..j], loc, exts), false)
      {
        SweepStep(walk, loc, exts, j);
        if Swept(walk[j], loc, exts) {
          ParseAllSnoc(env, old(State()), SweepLocation(walk[..j], loc, exts), walk[j], false);
          ParseFile(walk[j], false);
        }
        j := j + 1;
      }
      assert walk[..j] == walk;
    }

    /** `_parse_additional_files(project_type)` over the project walk. */
    method ParseAdditionalFiles(pt: ProjectType, walk: seq<string>)
      requires Valid()
      modifies this, jsPlugin
      ensures State() == ParseAll(env, old(State()), SweepFiles(pt, walk), false)
    {
      var exts := SweepExtensions(pt);
      var i := 0;
      while i < |SweepLocations|
        invariant 0 <= i <= |SweepLocations|
        invariant State() == ParseAll(env, old(State()), SweepEach(walk, SweepLocations[..i], exts), false)
      {
        assert SweepLocations[..i + 1][..i] == SweepLocations[..i];
        ParseAllAppend(env, old(State()), SweepEach(walk, SweepLocations[..i], exts), SweepLocation(walk, SweepLocations[i], exts), false);
        SweepLocationLoop(walk, SweepLocations[i], exts);
        i := i + 1;
      }
      assert SweepLocations[..i] == SweepLocations;
    }

    /** The writes of `_build_module_index` for one visited file. */
    method IndexFile(rel: string)
      modifies this`moduleIndex
      ensures moduleIndex == PutAll(old(moduleIndex), KeysFor(rel), rel)
    {
      if !Indexed(rel) {
        return;
      }
      moduleIndex := Put(moduleIndex, NormalizeModuleKey(rel), rel);
      if Stem(rel) == "index" && !IsTopLevel(rel) {
        moduleIndex := Put(moduleIndex, NormalizeModuleKey(Parent(rel)), rel);
      }
      FirstKeys(old(moduleIndex), rel);
      IndexUnderRoots(rel, SrcRoots);
      PutAllAppend(old(moduleIndex), [NormalizeModuleKey(rel)] + FolderKey(rel), RootKeys(rel, SrcRoots), rel);
    }

    /** `for root_dir in src_roots: if rel.startswith(root_dir + os.sep): ...`. */
    method IndexUnderRoots(rel: string, roots: seq<string>)
      modifies this`moduleIndex
      ensures moduleIndex == PutAll(old(moduleIndex), RootKeys(rel, roots), rel)
    {
      var k := 0;
      while k < |roots|
        invariant 0 <= k <= |roots|
        invariant moduleIndex == PutAll(old(moduleIndex), RootKeys(rel, roots[..k]), rel)
      {
        var root := roots[k];
        RootKeysStep(rel, roots, k);
        if StartsWith(rel, root + "/") {
          var key := NormalizeModuleKey(rel[|root| + 1..]);
          PutAllSnoc(old(moduleIndex), RootKeys(rel, roots[..k]), key, rel);
          moduleIndex := Put(moduleIndex, key, rel);
        } else {
          assert RootKey(rel, root) == [];
          assert RootKeys(rel, roots[..k]) + [] == RootKeys(rel, roots[..k]);
        }
        k := k + 1;
      }
      assert roots[..k] == roots;
    }

    /** `_build_module_index()` over the project walk. */
    method BuildModuleIndex(walk: seq<string>)
      modifies this`moduleIndex
      ensures moduleIndex == BuildIndex(old(moduleIndex), walk)
    {
      var i := 0;
      while i < |walk|
        invariant 0 <= i <= |walk|
        invariant moduleIndex == BuildIndex(old(moduleIndex), walk[..i])
      {
        IndexStep(old(moduleIndex), walk, i);
        if !IndexSkipped(walk[i]) {
          IndexFile(walk[i]);
        }
        i := i + 1;
      }
      assert walk[..i] == walk;
    }

    /** `_resolve_import_target(from_file, specifier)`. */
    method ResolveImportTarget(from: string, spec: string) returns (r: Option<string>)
      ensures r == Resolve(moduleIndex, env.existing, from, spec)
    {
      var cands: seq<Cand>;
      if IsRelativeSpecifier(spec) {
        cands := PushCandidates(InProject(ParentSegs(from) + Segments(spec)));
      } else {
        var norm := NormalizeModuleKey(spec);
        if norm in moduleIndex.m {
          return Some(moduleIndex.m[norm]);
        }
        cands := RootCandidatesLoop(spec);
        var hit := SuffixMatchLoop(moduleIndex, norm);
        if hit.Some? {
          return hit;
        }
      }
      assert cands == Candidates(from, spec);
      r := FirstExistingLoop(env.existing, cands);
    }

    /** `_add_import_edge(from_file, import_path)`. */
    method AddImportEdge(from: string, spec: string)
      modifies this`nodes, this`registry, this`edges
      ensures State() == AddImport(env, old(State()), from, spec)
    {
      var target := ResolveImportTarget(from, spec);
      if target.None? || target.value == "" {
        return;
      }
      var src := ImportModuleNode(env.ctx, from);
      var tgt := ImportModuleNode(env.ctx, target.value);
      AddIfMissingNode(src);
      AddIfMissingNode(tgt);
      edges := edges + [Edge(src.id, tgt.id, DependsOn)];
    }

    /**
     * A declaration loop of the capture processors: a node for each
     * non-empty name, appended and registered, the name added to `declared`.
     */
    method DeclareAll(rule: KindRule, names: seq<string>, rel: string, isEntry: bool, declared0: set<string>)
      returns (declared: set<string>)
      modifies this`nodes, this`registry
      ensures State() == AddNodes(old(State()), DeclNodes(env.ctx, rel, isEntry, rule, names))
      ensures forall x :: x in declared <==> x in declared0 || (x in names && x != [])
    {
      declared := declared0;
      assert Items([]) == [];
      var i := 0;
      while i < |names|
        invariant 0 <= i <= |names|
        invariant State() == AddNodes(old(State()), DeclNodes(env.ctx, rel, isEntry, rule, names[..i]))
        invariant forall x :: x in declared <==> x in declared0 || (x in names[..i] && x != [])
      {
        var name := names[i];
        DeclStep(env.ctx, old(State()), rel, isEntry, rule, names, i, State());
        if name != [] {
          declared := declared + {name};
          var n := ParserNode(env.ctx, KindFor(rule, name), rel, name, isEntry);
          nodes := nodes + [NodeItem(n)];
          registry := registry[n.id := n];
        }
        i := i + 1;
      }
      assert names[..i] == names;
    }

    /** The import loop of `_process_js_captures`. */
    method LinkImports(rel: string, raws: seq<string>)
      modifies this`nodes, this`registry, this`edges
      ensures State() == AddImports(env, old(State()), rel, ImportSpecs(raws))
    {
      var i := 0;
      while i < |raws|
        invariant 0 <= i <= |raws|
        invariant State() == AddImports(env, old(State()), rel, ImportSpecs(raws[..i]))
      {
        var spec := StripLiteral(raws[i]);
        LinkStep(env, old(State()), rel, raws, i, State());
        if spec != [] {
          AddImportEdge(rel, spec);
        }
        i := i + 1;
      }
      assert raws[..i] == raws;
    }

    /** `_process_js_captures(captures, content, relative_path, ext, is_entry)`. */
    method ProcessJsCaptures(caps: JsPlugin.JsCaptures, rel: string, ext: string, isEntry: bool)
      modifies this`nodes, this`registry, this`edges, this`fileSymbols
      ensures State() == JsCaptureStep(env, old(State()), caps, rel, ext, isEntry)
    {
      var declared := DeclareAll(JsRule(JsPlugin.ClassRole, ext), caps.classNames, rel, isEntry, {});
      declared := DeclareAll(JsRule(JsPlugin.FunctionRole, ext), caps.funcNames + caps.varFuncs, rel, isEntry, declared);
      AddNodesAppend(old(State()), DeclNodes(env.ctx, rel, isEntry, JsRule(JsPlugin.ClassRole, ext), caps.classNames),
        DeclNodes(env.ctx, rel, isEntry, JsRule(JsPlugin.FunctionRole, ext), caps.funcNames + caps.varFuncs));
      assert caps.classNames + caps.funcNames + caps.varFuncs == caps.classNames + (caps.funcNames + caps.varFuncs);
      assert declared == JsPlugin.DeclaredNames(caps);
      LinkImports(rel, caps.importPaths);
      var jsx := UpperJsxLoop(caps.jsxNames);
      if jsx != [] {
        fileSymbols := Put(fileSymbols, rel, SymbolsOf(fileSymbols, rel).(jsx := Some(jsx)));
      }
      if declared != {} {
        var old_ := SymbolsOf(fileSymbols, rel);
        fileSymbols := Put(fileSymbols, rel, old_.(declared := Some(OldDeclared(old_) + declared)));
      }
    }

    /** `_process_java_captures(captures, content, relative_path, is_entry)`. */
    method ProcessJavaCaptures(caps: JavaPlugin.JavaCaptures, rel: string, isEntry: bool)
      modifies this`nodes, this`registry
      ensures State() == JavaCaptureStep(env.ctx, old(State()), caps, rel, isEntry)
    {
      var kind := ParserClassKind(caps.annNames);
      var _ := DeclareAll(FixedKind(kind), caps.classNames, rel, isEntry, {});
      AddEndpointsLoop(rel, JavaPlugin.Zip(caps.mapAnns, caps.mapPaths));
    }

    /** The endpoint loop of `_process_java_captures` over the (annotation, path) pairs. */
    method AddEndpointsLoop(rel: string, pairs: seq<(string, string)>)
      modifies this`nodes, this`registry
      ensures State() == AddEndpoints(env.ctx, old(State()), rel, JavaPlugin.EndpointPaths(pairs))
    {
      var i := 0;
      ghost var paths: seq<string> := [];
      while i < |pairs|
        invariant 0 <= i <= |pairs|
        invariant paths == JavaPlugin.EndpointPaths(pairs[..i])
        invariant State() == AddEndpoints(env.ctx, old(State()), rel, paths)
      {
        PathsStep(pairs, i);
        if JavaPlugin.IsEndpointPair(pairs[i]) {
          var path := StripLiteral(pairs[i].1);
          EndpointsSnoc(env.ctx, old(State()), rel, paths, path);
          AddIfMissingNode(ParserEndpointNode(env.ctx, rel, path));
          paths := paths + [path];
        }
        i := i + 1;
      }
      assert pairs[..i] == pairs;
    }

    /** `_analyze_relationships()`; `raised` when it stops on an entry that is not a node. */
    method AnalyzeRelationships() returns (raised: bool)
      modifies this`edges
      ensures (State(), raised) == RelationsStep(env, old(State()))
    {
      if !AllNodes(nodes) {
        return true;
      }
      var ns := NodesOf(nodes);
      var renders := RendersLoop(ns, fileSymbols);
      var scriptCalls := ParserCallsLoop(ns, env.jsCalls, ScriptScope);
      var pythonCalls := ParserCallsLoop(ns, env.pyCalls, PythonScope);
      var added := renders + scriptCalls + pythonCalls;
      edges := edges + added;
      raised := false;
    }

    /** `parse_project(entry_points, project_type)`; `raised` when the relationship analysis raised. */
    method ParseProject(entries: seq<string>, pt: ProjectType, walk: seq<string>) returns (raised: bool)
      requires Valid()
      modifies this, jsPlugin
      ensures (State(), raised) == ParseProjectStep(env, old(State()), entries, pt, walk)
    {
      BuildModuleIndex(walk);
      ParseEntries(entries);
      ParseAdditionalFiles(pt, walk);
      raised := AnalyzeRelationships();
    }
  }
}