/**
 * `JavaScriptPlugin`: turns the captures of a JavaScript/TypeScript file
 * (class names, function names, import paths and JSX tag names, as texts)
 * into a module node followed by class, function and component nodes, and
 * remembers each file's declared names and raw imports.
 */
module JsPlugin {
  import opened Wrappers
  import opened Text
  import opened Paths
  import opened Graph
  import opened Classifier

  /** The capture lists of one file, in capture order. */
  datatype JsCaptures = JsCaptures(
    classNames: seq<string>,
    funcNames: seq<string>,
    varFuncs: seq<string>,
    importPaths: seq<string>,
    jsxNames: seq<string>)

  /** The plugin's `file_symbols` entry of a file. */
  datatype JsSymbols = JsSymbols(declared: seq<string>, imports: seq<string>)

  /** `can_parse`. */
  predicate CanParse(ext: string)
  {
    Lower(ext) in [".js", ".jsx", ".ts", ".tsx"]
  }

  /** A node of this plugin: id from (file, name), entry flag, level from the plugin's own rules. */
  function MakeNode(ctx: Ctx, kind: NodeKind, rel: string, name: string, isEntry: bool): Node
  {
    Node(HashOnlyId(ctx.md5, rel, name), kind, rel, name,
         Meta(Some(isEntry), DetermineLevel(JavaScriptRules, ctx.ov, kind, rel, name, isEntry), None))
  }

  /** A capture loop's rule for the kind of its nodes. */
  datatype Role = ClassRole | FunctionRole | JsxRole

  /** A function is a component iff its name starts upper-case in a `.tsx`/`.jsx` file (`ext` as written). */
  function KindOf(role: Role, name: string, ext: string): NodeKind
  {
    match role
    case ClassRole => Class
    case FunctionRole => if name != [] && IsUpper(name[0]) && ext in [".tsx", ".jsx"] then Component else Function
    case JsxRole => Component
  }

  /** The nodes a capture loop emits: one per non-empty name, in order. */
  function NodesFor(ctx: Ctx, rel: string, ext: string, isEntry: bool, role: Role, names: seq<string>): seq<Node>
    decreases |names|
  {
    if names == [] then []
    else
      var prev := NodesFor(ctx, rel, ext, isEntry, role, names[..|names| - 1]);
      var name := names[|names| - 1];
      if name == [] then prev else prev + [MakeNode(ctx, KindOf(role, name, ext), rel, name, isEntry)]
  }

  /** The JSX names that give new nodes: non-empty, not declared, not already seen. */
  function NewJsxNames(declared: set<string>, names: seq<string>): seq<string>
    decreases |names|
  {
    if names == [] then []
    else
      var prev := NewJsxNames(declared, names[..|names| - 1]);
      var name := names[|names| - 1];
      if name == [] || name in declared || name in prev then prev else prev + [name]
  }

  /** The class and function names of the captures, as `declared_names` holds them before the JSX loop. */
  function DeclaredNames(caps: JsCaptures): set<string>
  {
    set n | n in caps.classNames + caps.funcNames + caps.varFuncs && n != []
  }

  /** `_process_captures`: classes, then functions, then new JSX components. */
  function CaptureNodes(ctx: Ctx, rel: string, ext: string, caps: JsCaptures, isEntry: bool): seq<Node>
  {
    NodesFor(ctx, rel, ext, isEntry, ClassRole, caps.classNames)
    + NodesFor(ctx, rel, ext, isEntry, FunctionRole, caps.funcNames + caps.varFuncs)
    + NodesFor(ctx, rel, ext, isEntry, JsxRole, NewJsxNames(DeclaredNames(caps), caps.jsxNames))
  }

  /** The module node of a file: named after the file's stem, with the id of (file, `module`). */
  function ModuleNode(ctx: Ctx, rel: string, isEntry: bool): Node
  {
    Node(HashOnlyId(ctx.md5, rel, "module"), Module, rel, Stem(rel),
         Meta(Some(isEntry), DetermineLevel(JavaScriptRules, ctx.ov, Module, rel, Stem(rel), isEntry), None))
  }

  /** `parse`: the module node, then the capture nodes when the file could be parsed. */
  function ParseNodes(ctx: Ctx, rel: string, isEntry: bool, syntax: Option<JsCaptures>): seq<Node>
  {
    [ModuleNode(ctx, rel, isEntry)] + (if syntax.Some? then CaptureNodes(ctx, rel, Suffix(rel), syntax.value, isEntry) else [])
  }

  // ---------------------------------------------------------------------
  // Properties

  /** The names of a capture loop's nodes are its non-empty names, in order. */
  lemma {:induction false} NodesForNames(ctx: Ctx, rel: string, ext: string, isEntry: bool, role: Role, names: seq<string>)
    ensures NamesOf(NodesFor(ctx, rel, ext, isEntry, role, names)) == NonEmpty(names)
    decreases |names|
  {
    if names != [] {
      NodesForNames(ctx, rel, ext, isEntry, role, names[..|names| - 1]);
    }
  }

  /** Every node has a non-empty name, belongs to the file, has the id of (file, name), the role's kind and the entry flag. */
  predicate LoopNodes(ns: seq<Node>, md5: Hasher, rel: string, ext: string, isEntry: bool, role: Role)
  {
    forall i :: 0 <= i < |ns| ==>
      && ns[i].name != [] && ns[i].file == rel && ns[i].id == HashOnlyId(md5, rel, ns[i].name)
      && ns[i].kind == KindOf(role, ns[i].name, ext) && ns[i].meta.isEntry == Some(isEntry)
  }

  lemma {:induction false} NodesForShape(ctx: Ctx, rel: string, ext: string, isEntry: bool, role: Role, names: seq<string>)
    ensures LoopNodes(NodesFor(ctx, rel, ext, isEntry, role, names), ctx.md5, rel, ext, isEntry, role)
    decreases |names|
  {
    if names != [] {
      NodesForShape(ctx, rel, ext, isEntry, role, names[..|names| - 1]);
      var prev := NodesFor(ctx, rel, ext, isEntry, role, names[..|names| - 1]);
      var name := names[|names| - 1];
      if name != [] {
        var ns := prev + [MakeNode(ctx, KindOf(role, name, ext), rel, name, isEntry)];
        assert forall i :: 0 <= i < |prev| ==> ns[i] == prev[i];
        assert LoopNodes(ns, ctx.md5, rel, ext, isEntry, role);
      }
    }
  }

  /**
   * A function capture is a component exactly when its first character is
   * upper-case and the extension is `.tsx` or `.jsx`; otherwise it is a
   * function.
   */
  lemma FunctionKindRule(name: string, ext: string)
    requires name != []
    ensures KindOf(FunctionRole, name, ext) in {Component, Function}
    ensures KindOf(FunctionRole, name, ext) == Component <==> IsUpper(name[0]) && (ext == ".tsx" || ext == ".jsx")
  {
  }

  /**
   * The JSX loop adds a node for exactly the non-empty names that were not
   * declared, each once, in order of first appearance.
   */
  lemma {:induction false} NewJsxNamesExactly(declared: set<string>, names: seq<string>)
    ensures forall x :: x in NewJsxNames(declared, names) <==> x in names && x != [] && x !in declared
    ensures forall i, j :: 0 <= i < j < |NewJsxNames(declared, names)| ==>
      NewJsxNames(declared, names)[i] != NewJsxNames(declared, names)[j]
    decreases |names|
  {
    if names != [] {
      var init := names[..|names| - 1];
      var name := names[|names| - 1];
      NewJsxNamesExactly(declared, init);
      assert names == init + [name];
      var prev := NewJsxNames(declared, init);
      if !(name == [] || name in declared || name in prev) {
        var r := prev + [name];
        forall i, j | 0 <= i < j < |r|
          ensures r[i] != r[j]
        {
          if j == |prev| {
            assert r[i] == prev[i];
            assert r[i] in prev;
          } else {
            assert r[i] == prev[i] && r[j] == prev[j];
          }
        }
      }
    }
  }

  /** With no language available the result is exactly the module node; the module node always comes first. */
  lemma ParseStartsWithModule(ctx: Ctx, rel: string, isEntry: bool, syntax: Option<JsCaptures>)
    ensures var ns := ParseNodes(ctx, rel, isEntry, syntax);
      && |ns| >= 1 && ns[0] == ModuleNode(ctx, rel, isEntry)
      && ns[0].id == HashOnlyId(ctx.md5, rel, "module") && ns[0].name == Stem(rel)
      && (syntax.None? ==> |ns| == 1)
  {
  }

  lemma {:induction false} NonEmptyOfNonEmpty(names: seq<string>)
    requires forall i :: 0 <= i < |names| ==> names[i] != []
    ensures NonEmpty(names) == names
    decreases |names|
  {
    if names != [] {
      NonEmptyOfNonEmpty(names[..|names| - 1]);
      assert names == names[..|names| - 1] + [names[|names| - 1]];
    }
  }

  /** The names of three node lists put together. */
  lemma NamesOfConcat3(a: seq<Node>, b: seq<Node>, c: seq<Node>, x: seq<string>, y: seq<string>, z: seq<string>)
    requires NamesOf(a) == x && NamesOf(b) == y && NamesOf(c) == z
    ensures NamesOf(a + b + c) == x + y + z
  {
    NamesOfAppend(a, b);
    NamesOfAppend(a + b, c);
  }

  /**
   * The declared names the plugin records for a file: the non-empty class
   * names, the non-empty function names, then the new JSX names.
   */
  lemma CaptureNodesNames(ctx: Ctx, rel: string, ext: string, caps: JsCaptures, isEntry: bool)
    ensures NamesOf(CaptureNodes(ctx, rel, ext, caps, isEntry))
         == NonEmpty(caps.classNames) + NonEmpty(caps.funcNames + caps.varFuncs)
            + NewJsxNames(DeclaredNames(caps), caps.jsxNames)
  {
    var jsx := NewJsxNames(DeclaredNames(caps), caps.jsxNames);
    NodesForNames(ctx, rel, ext, isEntry, ClassRole, caps.classNames);
    NodesForNames(ctx, rel, ext, isEntry, FunctionRole, caps.funcNames + caps.varFuncs);
    NodesForNames(ctx, rel, ext, isEntry, JsxRole, jsx);
    NewJsxNamesExactly(DeclaredNames(caps), caps.jsxNames);
    assert forall i :: 0 <= i < |jsx| ==> jsx[i] in jsx;
    NonEmptyOfNonEmpty(jsx);
    NamesOfConcat3(NodesFor(ctx, rel, ext, isEntry, ClassRole, caps.classNames),
                   NodesFor(ctx, rel, ext, isEntry, FunctionRole, caps.funcNames + caps.varFuncs),
                   NodesFor(ctx, rel, ext, isEntry, JsxRole, jsx),
                   NonEmpty(caps.classNames), NonEmpty(caps.funcNames + caps.varFuncs), jsx);
  }

  // ---------------------------------------------------------------------
  // The plugin object

  class JavaScriptPlugin {
    /** `file_symbols`: declared names and raw imports per parsed file. */
    var fileSymbols: map<string, JsSymbols>
    const ctx: Ctx

    constructor (ctx: Ctx)
      ensures this.ctx == ctx && fileSymbols == map[]
    {
      this.ctx := ctx;
      fileSymbols := map[];
    }

    /**
     * The class loop and the function loop of `_process_captures`: a node
     * for each non-empty name, which is also added to `declared_names`.
     */
    method DeclaringLoop(rel: string, ext: string, isEntry: bool, role: Role, names: seq<string>, declared0: set<string>)
      returns (nodes: seq<Node>, declared: set<string>)
      ensures nodes == NodesFor(ctx, rel, ext, isEntry, role, names)
      ensures forall x :: x in declared <==> x in declared0 || (x in names && x != [])
    {
      nodes := [];
      declared := declared0;
      var i := 0;
      while i < |names|
        invariant 0 <= i <= |names|
        invariant nodes == NodesFor(ctx, rel, ext, isEntry, role, names[..i])
        invariant forall x :: x in declared <==> x in declared0 || (x in names[..i] && x != [])
      {
        var name := names[i];
        assert names[..i + 1] == names[..i] + [name];
        if name != [] {
          declared := declared + {name};
          nodes := nodes + [MakeNode(ctx, KindOf(role, name, ext), rel, name, isEntry)];
        }
        i := i + 1;
      }
      assert names[..i] == names;
    }

    /** The JSX loop of `_process_captures`: a component for each non-empty name not yet declared. */
    method JsxLoop(rel: string, ext: string, isEntry: bool, names: seq<string>, declared0: set<string>)
      returns (nodes: seq<Node>)
      ensures nodes == NodesFor(ctx, rel, ext, isEntry, JsxRole, NewJsxNames(declared0, names))
    {
      nodes := [];
      var declared := declared0;
      ghost var added: seq<string> := [];
      var i := 0;
      while i < |names|
        invariant 0 <= i <= |names|
        invariant added == NewJsxNames(declared0, names[..i])
        invariant nodes == NodesFor(ctx, rel, ext, isEntry, JsxRole, added)
        invariant forall x :: x in declared <==> x in declared0 || x in added
      {
        var name := names[i];
        assert names[..i + 1][..i] == names[..i];
        if name != [] && name !in declared {
          declared := declared + {name};
          assert (added + [name])[..|added|] == added;
          added := added + [name];
          nodes := nodes + [MakeNode(ctx, Component, rel, name, isEntry)];
        }
        i := i + 1;
      }
      assert names[..i] == names;
    }

    /** `_process_captures`: classes, then functions, then new JSX components. */
    method ProcessCaptures(caps: JsCaptures, rel: string, ext: string, isEntry: bool) returns (nodes: seq<Node>)
      ensures nodes == CaptureNodes(ctx, rel, ext, caps, isEntry)
    {
      var classNodes, declared := DeclaringLoop(rel, ext, isEntry, ClassRole, caps.classNames, {});
      var funcs := caps.funcNames + caps.varFuncs;
      var funcNodes;
      funcNodes, declared := DeclaringLoop(rel, ext, isEntry, FunctionRole, funcs, declared);
      assert caps.classNames + caps.funcNames + caps.varFuncs == caps.classNames + funcs;
      assert declared == DeclaredNames(caps);
      var jsxNodes := JsxLoop(rel, ext, isEntry, caps.jsxNames, declared);
      nodes := classNodes + funcNodes + jsxNodes;
    }

    /** `parse`: the node list, and the file's symbols when the file could be parsed. */
    method Parse(rel: string, isEntry: bool, syntax: Option<JsCaptures>) returns (nodes: seq<Node>)
      modifies this
      ensures nodes == ParseNodes(ctx, rel, isEntry, syntax)
      ensures syntax.None? ==> fileSymbols == old(fileSymbols)
      ensures syntax.Some? ==>
        fileSymbols == old(fileSymbols)[rel := JsSymbols(NamesOf(nodes[1..]), syntax.value.importPaths)]
    {
      nodes := [ModuleNode(ctx, rel, isEntry)];
      if syntax.Some? {
        var fnodes := ProcessCaptures(syntax.value, rel, Suffix(rel), isEntry);
        nodes := nodes + fnodes;
        assert nodes[1..] == fnodes;
        fileSymbols := fileSymbols[rel := JsSymbols(NamesOf(fnodes), syntax.value.importPaths)];
      }
    }
  }
}
