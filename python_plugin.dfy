/**
 * `PythonPlugin`: turns the statements of a Python file, in the order the
 * syntax-tree walk visits them, into a module node followed by class,
 * function and view nodes, and collects the file's imports.
 */
module PythonPlugin {
  import opened Wrappers
  import opened Text
  import opened Paths
  import opened Graph
  import opened Classifier

  /** The syntax-tree nodes the plugin looks at; every other node is `OtherNode`. */
  datatype PyNode =
    | ClassDef(name: string)
    | FunctionDef(name: string)
    | Import(names: seq<string>)
    | ImportFrom(origin: Option<string>, names: seq<string>)
    | OtherNode

  /** The `symbols` dictionary of a parsed file. */
  datatype PySymbols = PySymbols(declared: seq<string>, imports: seq<string>)

  /** `can_parse`. */
  predicate CanParse(ext: string)
  {
    Lower(ext) == ".py"
  }

  /** A node of this plugin: prefixed id from (file, name), entry flag, level from the plugin's own rules. */
  function MakeNode(ctx: Ctx, kind: NodeKind, rel: string, name: string, isEntry: bool): Node
  {
    Node(PrefixedId(ctx.md5, rel, name), kind, rel, name,
         Meta(Some(isEntry), DetermineLevel(PythonRules, ctx.ov, kind, rel, name, isEntry), None))
  }

  /** A function whose lower-cased name mentions `view` is a view. */
  function FunctionKind(name: string): NodeKind
  {
    if Contains(Lower(name), "view") then View else Function
  }

  /** The kind of the node of a class or function definition. */
  function DeclKind(s: PyNode): NodeKind
    requires s.ClassDef? || s.FunctionDef?
  {
    if s.ClassDef? then Class else FunctionKind(s.name)
  }

  /** `_process_ast`: a node per class and function definition, in walk order. */
  function AstNodes(ctx: Ctx, rel: string, isEntry: bool, walk: seq<PyNode>): seq<Node>
    decreases |walk|
  {
    if walk == [] then []
    else
      var prev := AstNodes(ctx, rel, isEntry, walk[..|walk| - 1]);
      var s := walk[|walk| - 1];
      if s.ClassDef? || s.FunctionDef? then prev + [MakeNode(ctx, DeclKind(s), rel, s.name, isEntry)] else prev
  }

  /** The names defined by the class and function definitions of a walk, in order. */
  function DefinedNames(walk: seq<PyNode>): seq<string>
    decreases |walk|
  {
    if walk == [] then []
    else
      var prev := DefinedNames(walk[..|walk| - 1]);
      var s := walk[|walk| - 1];
      if s.ClassDef? || s.FunctionDef? then prev + [s.name] else prev
  }

  /** `f"{module}.{name}"` for each imported name. */
  function Qualify(prefix: string, names: seq<string>): (r: seq<string>)
    ensures |r| == |names|
    decreases |names|
  {
    if names == [] then [] else Qualify(prefix, names[..|names| - 1]) + [prefix + "." + names[|names| - 1]]
  }

  /** The import texts of one walked statement; a from-import with no (or an empty) module gives none. */
  function StmtImports(s: PyNode): seq<string>
  {
    match s
    case Import(names) => names
    case ImportFrom(origin, names) => if origin.Some? && origin.value != [] then Qualify(origin.value, names) else []
    case _ => []
  }

  /** `_extract_imports`. */
  function ImportsOf(walk: seq<PyNode>): seq<string>
    decreases |walk|
  {
    if walk == [] then [] else ImportsOf(walk[..|walk| - 1]) + StmtImports(walk[|walk| - 1])
  }

  /** The module node of a file: named after the file's stem, with the id of (file, `module`). */
  function ModuleNode(ctx: Ctx, rel: string, isEntry: bool): Node
  {
    Node(PrefixedId(ctx.md5, rel, "module"), Module, rel, Stem(rel),
         Meta(Some(isEntry), DetermineLevel(PythonRules, ctx.ov, Module, rel, Stem(rel), isEntry), None))
  }

  /**
   * `parse`: the nodes and the symbols; `tree` is the walk of the file's
   * syntax tree, or `None` when the file does not parse, in which case the
   * symbols are the empty dictionary (`None`).
   */
  function ParseResult(ctx: Ctx, rel: string, isEntry: bool, tree: Option<seq<PyNode>>): (seq<Node>, Option<PySymbols>)
  {
    match tree
    case None => ([ModuleNode(ctx, rel, isEntry)], None)
    case Some(walk) =>
      var decls := AstNodes(ctx, rel, isEntry, walk);
      ([ModuleNode(ctx, rel, isEntry)] + decls, Some(PySymbols(NonEmpty(NamesOf(decls)), ImportsOf(walk))))
  }

  // ---------------------------------------------------------------------
  // The loops

  /** `_process_ast`: one pass over the walk, appending a node per definition. */
  method ProcessAst(ctx: Ctx, rel: string, isEntry: bool, walk: seq<PyNode>) returns (nodes: seq<Node>)
    ensures nodes == AstNodes(ctx, rel, isEntry, walk)
  {
    nodes := [];
    var i := 0;
    while i < |walk|
      invariant 0 <= i <= |walk|
      invariant nodes == AstNodes(ctx, rel, isEntry, walk[..i])
    {
      assert walk[..i + 1][..i] == walk[..i];
      match walk[i] {
        case ClassDef(name) =>
          nodes := nodes + [MakeNode(ctx, Class, rel, name, isEntry)];
        case FunctionDef(name) =>
          var kind := if Contains(Lower(name), "view") then View else Function;
          nodes := nodes + [MakeNode(ctx, kind, rel, name, isEntry)];
        case _ =>
      }
      i := i + 1;
    }
    assert walk[..i] == walk;
  }

  /** The inner loops of `_extract_imports`: the names of one import statement. */
  method StmtImportsLoop(s: PyNode) returns (imports: seq<string>)
    ensures imports == StmtImports(s)
  {
    imports := [];
    match s {
      case Import(names) =>
        var j := 0;
        while j < |names|
          invariant 0 <= j <= |names|
          invariant imports == names[..j]
        {
          assert names[..j + 1] == names[..j] + [names[j]];
          imports := imports + [names[j]];
          j := j + 1;
        }
        assert names[..j] == names;
      case ImportFrom(origin, names) =>
        if origin.Some? && origin.value != [] {
          var j := 0;
          while j < |names|
            invariant 0 <= j <= |names|
            invariant imports == Qualify(origin.value, names[..j])
          {
            assert names[..j + 1][..j] == names[..j];
            imports := imports + [origin.value + "." + names[j]];
            j := j + 1;
          }
          assert names[..j] == names;
        }
      case _ =>
    }
  }

  /** `_extract_imports`: the walk, and for each import statement its names. */
  method ExtractImports(walk: seq<PyNode>) returns (imports: seq<string>)
    ensures imports == ImportsOf(walk)
  {
    imports := [];
    var i := 0;
    while i < |walk|
      invariant 0 <= i <= |walk|
      invariant imports == ImportsOf(walk[..i])
    {
      assert walk[..i + 1][..i] == walk[..i];
      var more := StmtImportsLoop(walk[i]);
      imports := imports + more;
      i := i + 1;
    }
    assert walk[..i] == walk;
  }

  /** `parse`: the module node first, then the definitions and the symbols when the file parses. */
  method Parse(ctx: Ctx, rel: string, isEntry: bool, tree: Option<seq<PyNode>>) returns (nodes: seq<Node>, symbols: Option<PySymbols>)
    ensures (nodes, symbols) == ParseResult(ctx, rel, isEntry, tree)
  {
    nodes := [ModuleNode(ctx, rel, isEntry)];
    symbols := None;
    if tree.Some? {
      var functionNodes := ProcessAst(ctx, rel, isEntry, tree.value);
      nodes := nodes + functionNodes;
      var imports := ExtractImports(tree.value);
      symbols := Some(PySymbols(NonEmpty(NamesOf(functionNodes)), imports));
    }
  }

  // ---------------------------------------------------------------------
  // Properties

  /** Every definition node belongs to the file, has the prefixed id of (file, name), and is a class or named after its kind rule. */
  predicate DeclNodesOk(ns: seq<Node>, md5: Hasher, rel: string, isEntry: bool)
  {
    forall i :: 0 <= i < |ns| ==>
      && ns[i].file == rel && ns[i].id == PrefixedId(md5, rel, ns[i].name)
      && (ns[i].kind == Class || ns[i].kind == FunctionKind(ns[i].name))
      && ns[i].meta.isEntry == Some(isEntry) && ns[i].meta.endpoint.None?
  }

  lemma {:induction false} AstNodesShape(ctx: Ctx, rel: string, isEntry: bool, walk: seq<PyNode>)
    ensures DeclNodesOk(AstNodes(ctx, rel, isEntry, walk), ctx.md5, rel, isEntry)
    decreases |walk|
  {
    if walk != [] {
      AstNodesShape(ctx, rel, isEntry, walk[..|walk| - 1]);
      var prev := AstNodes(ctx, rel, isEntry, walk[..|walk| - 1]);
      var s := walk[|walk| - 1];
      if s.ClassDef? || s.FunctionDef? {
        var ns := prev + [MakeNode(ctx, DeclKind(s), rel, s.name, isEntry)];
        assert forall i :: 0 <= i < |prev| ==> ns[i] == prev[i];
        assert DeclNodesOk(ns, ctx.md5, rel, isEntry);
      }
    }
  }

  lemma {:induction false} AstNodesNames(ctx: Ctx, rel: string, isEntry: bool, walk: seq<PyNode>)
    ensures NamesOf(AstNodes(ctx, rel, isEntry, walk)) == DefinedNames(walk)
    decreases |walk|
  {
    if walk != [] {
      AstNodesNames(ctx, rel, isEntry, walk[..|walk| - 1]);
    }
  }

  /** A class definition gives a class; a function definition gives a view exactly when its lower-cased name contains `view`. */
  lemma DefinitionKinds(s: PyNode)
    requires s.ClassDef? || s.FunctionDef?
    ensures s.ClassDef? ==> DeclKind(s) == Class
    ensures s.FunctionDef? ==>
      && (DeclKind(s) == View <==> Contains(Lower(s.name), "view"))
      && (DeclKind(s) == Function <==> !Contains(Lower(s.name), "view"))
  {
  }

  /** `s` puts `x` among the imports. */
  predicate ImportedBy(s: PyNode, x: string)
  {
    || (s.Import? && x in s.names)
    || (s.ImportFrom? && s.origin.Some? && s.origin.value != []
        && exists n :: n in s.names && x == s.origin.value + "." + n)
  }

  lemma {:induction false} QualifyExactly(prefix: string, names: seq<string>)
    ensures forall x :: x in Qualify(prefix, names) <==> exists n :: n in names && x == prefix + "." + n
    decreases |names|
  {
    if names != [] {
      var init := names[..|names| - 1];
      QualifyExactly(prefix, init);
      assert names == init + [names[|names| - 1]];
    }
  }

  lemma StmtImportsExactly(s: PyNode)
    ensures forall x :: x in StmtImports(s) <==> ImportedBy(s, x)
  {
    if s.ImportFrom? && s.origin.Some? && s.origin.value != [] {
      QualifyExactly(s.origin.value, s.names);
    }
  }

  /**
   * `import a` contributes `a`, `from m import x` contributes `m.x`, a
   * from-import with no module contributes nothing, and nothing else
   * contributes.
   */
  lemma {:induction false} ImportsExactly(walk: seq<PyNode>)
    ensures forall x :: x in ImportsOf(walk) <==> exists i :: 0 <= i < |walk| && ImportedBy(walk[i], x)
    decreases |walk|
  {
    if walk != [] {
      var init := walk[..|walk| - 1];
      var last := walk[|walk| - 1];
      ImportsExactly(init);
      StmtImportsExactly(last);
      forall x
        ensures x in ImportsOf(walk) <==> exists i :: 0 <= i < |walk| && ImportedBy(walk[i], x)
      {
        if exists i :: 0 <= i < |walk| && ImportedBy(walk[i], x) {
          var i :| 0 <= i < |walk| && ImportedBy(walk[i], x);
          if i < |init| {
            assert init[i] == walk[i];
          }
        }
        if exists i :: 0 <= i < |init| && ImportedBy(init[i], x) {
          var i :| 0 <= i < |init| && ImportedBy(init[i], x);
          assert walk[i] == init[i];
        }
      }
    }
  }

  /**
   * The module node always comes first; a file that does not parse gives
   * exactly the module node and empty symbols; otherwise the declared
   * names are the non-empty names of the definitions, in walk order.
   */
  lemma ParseShape(ctx: Ctx, rel: string, isEntry: bool, tree: Option<seq<PyNode>>)
    ensures var (nodes, symbols) := ParseResult(ctx, rel, isEntry, tree);
      && |nodes| >= 1 && nodes[0] == ModuleNode(ctx, rel, isEntry)
      && nodes[0].id == PrefixedId(ctx.md5, rel, "module") && nodes[0].name == Stem(rel)
      && (tree.None? ==> |nodes| == 1 && symbols.None?)
      && (tree.Some? ==> symbols.Some? && symbols.value.declared == NonEmpty(DefinedNames(tree.value))
                         && NamesOf(nodes[1..]) == DefinedNames(tree.value))
  {
    if tree.Some? {
      var decls := AstNodes(ctx, rel, isEntry, tree.value);
      AstNodesNames(ctx, rel, isEntry, tree.value);
      assert ([ModuleNode(ctx, rel, isEntry)] + decls)[1..] == decls;
    }
  }

  /** Absent overrides, a view is `component` unless it is an entry passing the container test. */
  lemma ViewIsComponent(rel: string, name: string, isEntry: bool)
    requires !(isEntry && ContainerRule(PythonRules, rel, name))
    ensures DetermineLevel(PythonRules, NoOverrides, View, rel, name, isEntry) == "component"
  {
    ComponentKindsAreComponents(PythonRules, View, rel, name, isEntry);
  }
}
