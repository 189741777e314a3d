/**
 * How Renders and Calls edges are derived from a node list by global name
 * matching.  The Renders rule is shared by the orchestrator and the
 * semantic analyzer (their loops are the same); the Calls rule of the
 * semantic analyzer links same-name nodes, while the orchestrator links
 * each node in scope to every node named by a name its file calls.
 * Node identity (`is not`) is position in the list.
 */
module Linking {
  import opened Wrappers
  import opened Text
  import opened OrderedDict
  import opened Graph

  // ---------------------------------------------------------------------
  // Selections (list comprehensions over the nodes)

  /** `[n for n in nodes if n.file == f and n.type == COMPONENT]`. */
  function ComponentsIn(ns: seq<Node>, f: string): (r: seq<Node>)
    ensures forall n :: n in r <==> n in ns && n.file == f && n.kind == Component
    decreases |ns|
  {
    if ns == [] then []
    else
      var prev := ComponentsIn(ns[..|ns| - 1], f);
      var n := ns[|ns| - 1];
      assert forall m :: m in ns <==> m in ns[..|ns| - 1] || m == n;
      if n.file == f && n.kind == Component then prev + [n] else prev
  }

  /** `[n for n in nodes if n.name == x and n.type == COMPONENT]`. */
  function ComponentsNamed(ns: seq<Node>, x: string): (r: seq<Node>)
    ensures forall n :: n in r <==> n in ns && n.name == x && n.kind == Component
    decreases |ns|
  {
    if ns == [] then []
    else
      var prev := ComponentsNamed(ns[..|ns| - 1], x);
      var n := ns[|ns| - 1];
      assert forall m :: m in ns <==> m in ns[..|ns| - 1] || m == n;
      if n.name == x && n.kind == Component then prev + [n] else prev
  }

  /** `[n for n in nodes if n.name == x]`. */
  function Named(ns: seq<Node>, x: string): (r: seq<Node>)
    ensures forall n :: n in r <==> n in ns && n.name == x
    decreases |ns|
  {
    if ns == [] then []
    else
      var prev := Named(ns[..|ns| - 1], x);
      var n := ns[|ns| - 1];
      assert forall m :: m in ns <==> m in ns[..|ns| - 1] || m == n;
      if n.name == x then prev + [n] else prev
  }

  // ---------------------------------------------------------------------
  // Edge lists

  /** `for tgt in tgts: append(Edge(a.id, tgt.id, k))`. */
  function Row(a: Node, tgts: seq<Node>, k: EdgeKind): (r: seq<Edge>)
    ensures |r| == |tgts| && forall j :: 0 <= j < |tgts| ==> r[j] == Edge(a.id, tgts[j].id, k)
  {
    seq(|tgts|, j requires 0 <= j < |tgts| => Edge(a.id, tgts[j].id, k))
  }

  lemma RowExactly(a: Node, tgts: seq<Node>, k: EdgeKind)
    ensures forall e :: e in Row(a, tgts, k) <==> exists b :: b in tgts && e == Edge(a.id, b.id, k)
  {
    var r := Row(a, tgts, k);
    forall e | e in r
      ensures exists b :: b in tgts && e == Edge(a.id, b.id, k)
    {
      var j :| 0 <= j < |r| && r[j] == e;
      assert tgts[j] in tgts;
    }
    forall b | b in tgts
      ensures Edge(a.id, b.id, k) in r
    {
      var j :| 0 <= j < |tgts| && tgts[j] == b;
      assert r[j] == Edge(a.id, b.id, k);
    }
  }

  /** `for src in srcs: for tgt in tgts: append(Edge(src.id, tgt.id, k))`. */
  function Product(srcs: seq<Node>, tgts: seq<Node>, k: EdgeKind): seq<Edge>
    decreases |srcs|
  {
    if srcs == [] then [] else Product(srcs[..|srcs| - 1], tgts, k) + Row(srcs[|srcs| - 1], tgts, k)
  }

  lemma MulAdd(a: int, b: int, c: int)
    ensures a * (b + c) == a * b + a * c && (b + c) * a == b * a + c * a
  {
  }

  /** The nested loop adds one edge per (source, target) pair, and exactly the edges between them. */
  lemma {:induction false} ProductExactly(srcs: seq<Node>, tgts: seq<Node>, k: EdgeKind)
    ensures |Product(srcs, tgts, k)| == |srcs| * |tgts|
    ensures forall e :: e in Product(srcs, tgts, k) <==> exists a, b :: a in srcs && b in tgts && e == Edge(a.id, b.id, k)
    decreases |srcs|
  {
    if srcs != [] {
      var init := srcs[..|srcs| - 1];
      var a := srcs[|srcs| - 1];
      ProductExactly(init, tgts, k);
      RowExactly(a, tgts, k);
      assert srcs == init + [a];
      MulAdd(|tgts|, |init|, 1);
    }
  }

  // ---------------------------------------------------------------------
  // Renders

  /** The `jsx_components` of a `file_symbols` entry, `[]` when missing. */
  function JsxNames(sym: FileSymbols): seq<string>
  {
    if sym.jsx.Some? then sym.jsx.value else []
  }

  /** For each JSX name in turn, Renders edges from the sources to the components of that name. */
  function RendersOfNames(ns: seq<Node>, srcs: seq<Node>, names: seq<string>): seq<Edge>
    decreases |names|
  {
    if names == [] then []
    else RendersOfNames(ns, srcs, names[..|names| - 1]) + Product(srcs, ComponentsNamed(ns, names[|names| - 1]), Renders)
  }

  /** For each file of `keys` in turn, the Renders edges of its JSX names from its components. */
  function RendersOfKeys(ns: seq<Node>, fs: ODict<FileSymbols>, keys: seq<string>): seq<Edge>
    decreases |keys|
  {
    if keys == [] then []
    else
      var f := keys[|keys| - 1];
      RendersOfKeys(ns, fs, keys[..|keys| - 1])
      + (if f in fs.m then RendersOfNames(ns, ComponentsIn(ns, f), JsxNames(fs.m[f])) else [])
  }

  /** The Renders pass over `file_symbols`, in its key order. */
  function RendersEdges(ns: seq<Node>, fs: ODict<FileSymbols>): seq<Edge>
  {
    RendersOfKeys(ns, fs, fs.keys)
  }

  /** `a` renders `b`: `a` is a component of file `f`, `b` a component named by one of `f`'s JSX names. */
  predicate RendersPair(ns: seq<Node>, fs: ODict<FileSymbols>, f: string, a: Node, b: Node)
  {
    && f in fs.m && a in ns && b in ns
    && a.file == f && a.kind == Component
    && b.kind == Component && b.name in JsxNames(fs.m[f])
  }

  lemma {:induction false} RendersOfNamesExactly(ns: seq<Node>, srcs: seq<Node>, names: seq<string>)
    ensures forall e :: e in RendersOfNames(ns, srcs, names) <==>
      exists a, b :: a in srcs && b in ns && b.kind == Component && b.name in names && e == Edge(a.id, b.id, Renders)
    decreases |names|
  {
    if names != [] {
      var init := names[..|names| - 1];
      var x := names[|names| - 1];
      RendersOfNamesExactly(ns, srcs, init);
      ProductExactly(srcs, ComponentsNamed(ns, x), Renders);
      assert names == init + [x];
    }
  }

  lemma {:induction false} RendersOfKeysExactly(ns: seq<Node>, fs: ODict<FileSymbols>, keys: seq<string>)
    ensures forall e :: e in RendersOfKeys(ns, fs, keys) <==>
      exists f, a, b :: f in keys && RendersPair(ns, fs, f, a, b) && e == Edge(a.id, b.id, Renders)
    decreases |keys|
  {
    if keys != [] {
      var init := keys[..|keys| - 1];
      var f := keys[|keys| - 1];
      var last := if f in fs.m then RendersOfNames(ns, ComponentsIn(ns, f), JsxNames(fs.m[f])) else [];
      assert RendersOfKeys(ns, fs, keys) == RendersOfKeys(ns, fs, init) + last;
      RendersOfKeysExactly(ns, fs, init);
      if f in fs.m {
        RendersOfNamesExactly(ns, ComponentsIn(ns, f), JsxNames(fs.m[f]));
      }
      assert keys == init + [f];
      forall e | e in last
        ensures exists g, a, b :: g in keys && RendersPair(ns, fs, g, a, b) && e == Edge(a.id, b.id, Renders)
      {
        var a, b :| a in ComponentsIn(ns, f) && b in ns && b.kind == Component && b.name in JsxNames(fs.m[f])
          && e == Edge(a.id, b.id, Renders);
        assert RendersPair(ns, fs, f, a, b);
      }
      forall e, a, b | RendersPair(ns, fs, f, a, b) && e == Edge(a.id, b.id, Renders)
        ensures e in last
      {
        assert a in ComponentsIn(ns, f);
      }
    }
  }

  /**
   * Renders edges go exactly from a Component of a file listed in
   * `file_symbols` to a Component whose name is one of that file's JSX
   * names; in particular a file with no JSX names or no component adds
   * none.
   */
  lemma RendersExactly(ns: seq<Node>, fs: ODict<FileSymbols>)
    ensures forall e :: e in RendersEdges(ns, fs) <==>
      exists f, a, b :: f in fs.keys && RendersPair(ns, fs, f, a, b) && e == Edge(a.id, b.id, Renders)
  {
    RendersOfKeysExactly(ns, fs, fs.keys);
  }

  /** The number of components named by any of `names`, counted once per name. */
  function TargetCount(ns: seq<Node>, names: seq<string>): nat
    decreases |names|
  {
    if names == [] then 0 else TargetCount(ns, names[..|names| - 1]) + |ComponentsNamed(ns, names[|names| - 1])|
  }

  /** The sum, over the files of `keys` listed in `fs`, of (components of the file) × (targets of its JSX names). */
  function RendersCount(ns: seq<Node>, fs: ODict<FileSymbols>, keys: seq<string>): nat
    decreases |keys|
  {
    if keys == [] then 0
    else
      var f := keys[|keys| - 1];
      RendersCount(ns, fs, keys[..|keys| - 1])
      + (if f in fs.m then |ComponentsIn(ns, f)| * TargetCount(ns, JsxNames(fs.m[f])) else 0)
  }

  lemma {:induction false} RendersOfNamesCount(ns: seq<Node>, srcs: seq<Node>, names: seq<string>)
    ensures |RendersOfNames(ns, srcs, names)| == |srcs| * TargetCount(ns, names)
    decreases |names|
  {
    if names != [] {
      var init := names[..|names| - 1];
      var x := names[|names| - 1];
      var prev := RendersOfNames(ns, srcs, init);
      var step := Product(srcs, ComponentsNamed(ns, x), Renders);
      var t, c := TargetCount(ns, init), |ComponentsNamed(ns, x)|;
      assert RendersOfNames(ns, srcs, names) == prev + step;
      assert TargetCount(ns, names) == t + c;
      RendersOfNamesCount(ns, srcs, init);
      ProductExactly(srcs, ComponentsNamed(ns, x), Renders);
      calc {
        |RendersOfNames(ns, srcs, names)|;
        |prev| + |step|;
        |srcs| * t + |srcs| * c;
        { MulAdd(|srcs|, t, c); }
        |srcs| * (t + c);
      }
    }
  }

  /** The number of Renders edges is the sum over files and JSX names of sources × matching targets. */
  lemma {:induction false} RendersEdgeCount(ns: seq<Node>, fs: ODict<FileSymbols>, keys: seq<string>)
    ensures |RendersOfKeys(ns, fs, keys)| == RendersCount(ns, fs, keys)
    decreases |keys|
  {
    if keys != [] {
      var f := keys[|keys| - 1];
      RendersEdgeCount(ns, fs, keys[..|keys| - 1]);
      if f in fs.m {
        RendersOfNamesCount(ns, ComponentsIn(ns, f), JsxNames(fs.m[f]));
      }
    }
  }

  lemma {:induction false} RendersOfNamesNone(ns: seq<Node>, srcs: seq<Node>, names: seq<string>)
    requires srcs == [] || names == []
    ensures RendersOfNames(ns, srcs, names) == []
    decreases |names|
  {
    if names != [] {
      RendersOfNamesNone(ns, srcs, names[..|names| - 1]);
    }
  }

  // ---------------------------------------------------------------------
  // The semantic analyzer's Calls

  /** The kinds whose nodes are call sources. */
  const CallerKinds: seq<NodeKind> := [Function, Component, Class]

  /** The nodes among the first `m`, other than the one at `i`, named like the one at `i`. */
  function OthersNamed(ns: seq<Node>, i: nat, m: nat): seq<Node>
    requires i < |ns| && m <= |ns|
    decreases m
  {
    if m == 0 then []
    else OthersNamed(ns, i, m - 1) + (if m - 1 != i && ns[m - 1].name == ns[i].name then [ns[m - 1]] else [])
  }

  /** The Calls edges of the first `m` nodes as sources. */
  function CallsUpTo(ns: seq<Node>, m: nat): seq<Edge>
    requires m <= |ns|
    decreases m
  {
    if m == 0 then []
    else CallsUpTo(ns, m - 1) + (if ns[m - 1].kind in CallerKinds then Row(ns[m - 1], OthersNamed(ns, m - 1, |ns|), Calls) else [])
  }

  /** `_analyze_calls`. */
  function SameNameCalls(ns: seq<Node>): seq<Edge>
  {
    CallsUpTo(ns, |ns|)
  }

  /** The node at `j` is a same-name target of the node at `i`. */
  predicate SameNameTarget(ns: seq<Node>, i: int, j: int)
  {
    0 <= i < |ns| && 0 <= j < |ns| && i != j && ns[j].name == ns[i].name
  }

  lemma {:induction false} OthersNamedExactly(ns: seq<Node>, i: nat, m: nat)
    requires i < |ns| && m <= |ns|
    ensures forall n :: n in OthersNamed(ns, i, m) <==> exists j :: 0 <= j < m && SameNameTarget(ns, i, j) && n == ns[j]
    decreases m
  {
    if m > 0 {
      OthersNamedExactly(ns, i, m - 1);
    }
  }

  lemma {:induction false} CallsUpToExactly(ns: seq<Node>, m: nat)
    requires m <= |ns|
    ensures forall e :: e in CallsUpTo(ns, m) <==>
      exists i, j :: 0 <= i < m && ns[i].kind in CallerKinds && SameNameTarget(ns, i, j) && e == Edge(ns[i].id, ns[j].id, Calls)
    decreases m
  {
    if m > 0 {
      CallsUpToExactly(ns, m - 1);
      OthersNamedExactly(ns, m - 1, |ns|);
      RowExactly(ns[m - 1], OthersNamed(ns, m - 1, |ns|), Calls);
    }
  }

  /**
   * Calls edges go exactly from each Function, Component or Class node to
   * every other node (by position) with the same name.
   */
  lemma SameNameCallsExactly(ns: seq<Node>)
    ensures forall e :: e in SameNameCalls(ns) <==>
      exists i, j :: 0 <= i < |ns| && ns[i].kind in CallerKinds && SameNameTarget(ns, i, j) && e == Edge(ns[i].id, ns[j].id, Calls)
  {
    CallsUpToExactly(ns, |ns|);
  }

  /** When every node has its own id, no Calls edge is a self-edge. */
  lemma NoSelfCalls(ns: seq<Node>)
    requires forall i, j :: 0 <= i < j < |ns| ==> ns[i].id != ns[j].id
    ensures forall e :: e in SameNameCalls(ns) ==> e.source != e.target
  {
    SameNameCallsExactly(ns);
  }

  /**
   * Identity is by position, not id: the same function captured twice in
   * one file gives two nodes with one id, and each calls the other, which
   * reads as an edge from that id to itself.
   */
  lemma DuplicateIdsGiveSelfEdge(n: Node)
    requires n.kind == Function
    ensures Edge(n.id, n.id, Calls) in SameNameCalls([n, n])
  {
    SameNameCallsExactly([n, n]);
    assert SameNameTarget([n, n], 0, 1);
  }

  // ---------------------------------------------------------------------
  // The orchestrator's Calls

  /** The two call passes of `_analyze_relationships`. */
  datatype CallScope = ScriptScope | PythonScope

  const ScriptSuffixes: seq<string> := [".js", ".jsx", ".ts", ".tsx"]

  /** Which nodes a call pass analyzes: by the file's suffix, as written, and the node's kind. */
  predicate InScope(sc: CallScope, n: Node)
  {
    match sc
    case ScriptScope => EndsWithAny(n.file, ScriptSuffixes) && n.kind in [Function, Component, Class]
    case PythonScope => EndsWith(n.file, ".py") && n.kind in [Function, Class, View]
  }

  /** `for called in called_names: for tgt in [n for n in nodes if n.name == called]: append(...)`. */
  function ScopeEdges(a: Node, ns: seq<Node>, called: seq<string>): seq<Edge>
    decreases |called|
  {
    if called == [] then [] else ScopeEdges(a, ns, called[..|called| - 1]) + Row(a, Named(ns, called[|called| - 1]), Calls)
  }

  /** One call pass over the first `m` nodes; `calls` holds the called names of each file that can be analyzed. */
  function ScopeCallsUpTo(ns: seq<Node>, calls: map<string, seq<string>>, sc: CallScope, m: nat): seq<Edge>
    requires m <= |ns|
    decreases m
  {
    if m == 0 then []
    else
      var a := ns[m - 1];
      ScopeCallsUpTo(ns, calls, sc, m - 1) + (if InScope(sc, a) && a.file in calls then ScopeEdges(a, ns, calls[a.file]) else [])
  }

  /** A call pass of `_analyze_relationships` over all nodes. */
  function ParserCallEdges(ns: seq<Node>, calls: map<string, seq<string>>, sc: CallScope): seq<Edge>
  {
    ScopeCallsUpTo(ns, calls, sc, |ns|)
  }

  lemma {:induction false} ScopeEdgesExactly(a: Node, ns: seq<Node>, called: seq<string>)
    ensures forall e :: e in ScopeEdges(a, ns, called) <==> exists b :: b in ns && b.name in called && e == Edge(a.id, b.id, Calls)
    decreases |called|
  {
    if called != [] {
      var init := called[..|called| - 1];
      var x := called[|called| - 1];
      ScopeEdgesExactly(a, ns, init);
      RowExactly(a, Named(ns, x), Calls);
      assert called == init + [x];
    }
  }

  /** `a` is in scope and its file calls the name of `b`. */
  predicate CallsPair(ns: seq<Node>, calls: map<string, seq<string>>, sc: CallScope, a: Node, b: Node)
  {
    a in ns && b in ns && InScope(sc, a) && a.file in calls && b.name in calls[a.file]
  }

  lemma {:induction false} ScopeCallsUpToExactly(ns: seq<Node>, calls: map<string, seq<string>>, sc: CallScope, m: nat)
    requires m <= |ns|
    ensures forall e :: e in ScopeCallsUpTo(ns, calls, sc, m) <==>
      exists a, b :: a in ns[..m] && CallsPair(ns, calls, sc, a, b) && e == Edge(a.id, b.id, Calls)
    decreases m
  {
    if m > 0 {
      var a := ns[m - 1];
      var last := if InScope(sc, a) && a.file in calls then ScopeEdges(a, ns, calls[a.file]) else [];
      assert ScopeCallsUpTo(ns, calls, sc, m) == ScopeCallsUpTo(ns, calls, sc, m - 1) + last;
      assert ns[..m] == ns[..m - 1] + [a];
      ScopeCallsUpToExactly(ns, calls, sc, m - 1);
      if a.file in calls {
        ScopeEdgesExactly(a, ns, calls[a.file]);
      }
      assert forall e :: e in last <==> exists b :: CallsPair(ns, calls, sc, a, b) && e == Edge(a.id, b.id, Calls);
    }
  }

  /**
   * A call pass links each node in scope to every node, of any kind,
   * itself included, whose name its file calls.
   */
  lemma ParserCallsExactly(ns: seq<Node>, calls: map<string, seq<string>>, sc: CallScope)
    ensures forall e :: e in ParserCallEdges(ns, calls, sc) <==>
      exists a, b :: CallsPair(ns, calls, sc, a, b) && e == Edge(a.id, b.id, Calls)
  {
    ScopeCallsUpToExactly(ns, calls, sc, |ns|);
    assert ns[..|ns|] == ns;
  }

  /** Unlike the semantic analyzer, a node whose file calls its own name gets an edge to itself. */
  lemma RecursiveCallIsSelfEdge(ns: seq<Node>, calls: map<string, seq<string>>, sc: CallScope, a: Node)
    requires a in ns && InScope(sc, a) && a.file in calls && a.name in calls[a.file]
    ensures Edge(a.id, a.id, Calls) in ParserCallEdges(ns, calls, sc)
  {
    ParserCallsExactly(ns, calls, sc);
    assert CallsPair(ns, calls, sc, a, a);
  }

  // ---------------------------------------------------------------------
  // The loops

  /** The inner loop over targets. */
  method RowLoop(a: Node, tgts: seq<Node>, k: EdgeKind) returns (es: seq<Edge>)
    ensures es == Row(a, tgts, k)
  {
    es := [];
    var j := 0;
    while j < |tgts|
      invariant 0 <= j <= |tgts|
      invariant es == Row(a, tgts[..j], k)
    {
      es := es + [Edge(a.id, tgts[j].id, k)];
      j := j + 1;
    }
    assert tgts[..j] == tgts;
  }

  /** The loop over sources, each with the inner loop over targets. */
  method ProductLoop(srcs: seq<Node>, tgts: seq<Node>, k: EdgeKind) returns (es: seq<Edge>)
    ensures es == Product(srcs, tgts, k)
  {
    es := [];
    var i := 0;
    while i < |srcs|
      invariant 0 <= i <= |srcs|
      invariant es == Product(srcs[..i], tgts, k)
    {
      var row := RowLoop(srcs[i], tgts, k);
      assert srcs[..i + 1][..i] == srcs[..i];
      es := es + row;
      i := i + 1;
    }
    assert srcs[..i] == srcs;
  }

  /** The loop over a file's JSX names. */
  method RendersNamesLoop(ns: seq<Node>, srcs: seq<Node>, names: seq<string>) returns (es: seq<Edge>)
    ensures es == RendersOfNames(ns, srcs, names)
  {
    es := [];
    var i := 0;
    while i < |names|
      invariant 0 <= i <= |names|
      invariant es == RendersOfNames(ns, srcs, names[..i])
    {
      var targets := ComponentsNamed(ns, names[i]);
      var more := ProductLoop(srcs, targets, Renders);
      assert names[..i + 1][..i] == names[..i];
      es := es + more;
      i := i + 1;
    }
    assert names[..i] == names;
  }

  /**
   * The Renders pass: files with no JSX names or no components are
   * skipped, the others run the loop over their JSX names.
   */
  method RendersLoop(ns: seq<Node>, fs: ODict<FileSymbols>) returns (es: seq<Edge>)
    ensures es == RendersEdges(ns, fs)
  {
    es := [];
    var i := 0;
    while i < |fs.keys|
      invariant 0 <= i <= |fs.keys|
      invariant es == RendersOfKeys(ns, fs, fs.keys[..i])
    {
      var f := fs.keys[i];
      assert fs.keys[..i + 1][..i] == fs.keys[..i];
      if f in fs.m {
        var jsx := JsxNames(fs.m[f]);
        var srcs := ComponentsIn(ns, f);
        if jsx == [] || srcs == [] {
          RendersOfNamesNone(ns, srcs, jsx);
        } else {
          var more := RendersNamesLoop(ns, srcs, jsx);
          es := es + more;
        }
      }
      i := i + 1;
    }
    assert fs.keys[..i] == fs.keys;
  }

  /** `_analyze_calls`: each caller, then the same-name targets other than itself. */
  method SameNameCallsLoop(ns: seq<Node>) returns (es: seq<Edge>)
    ensures es == SameNameCalls(ns)
  {
    es := [];
    var i := 0;
    while i < |ns|
      invariant 0 <= i <= |ns|
      invariant es == CallsUpTo(ns, i)
    {
      if ns[i].kind in CallerKinds {
        var row := RowLoop(ns[i], OthersNamed(ns, i, |ns|), Calls);
        es := es + row;
      }
      i := i + 1;
    }
  }

  /** The loop of `_analyze_*_calls` over the called names of the scope node's file. */
  method ScopeEdgesLoop(a: Node, ns: seq<Node>, called: seq<string>) returns (es: seq<Edge>)
    ensures es == ScopeEdges(a, ns, called)
  {
    es := [];
    var i := 0;
    while i < |called|
      invariant 0 <= i <= |called|
      invariant es == ScopeEdges(a, ns, called[..i])
    {
      var row := RowLoop(a, Named(ns, called[i]), Calls);
      assert called[..i + 1][..i] == called[..i];
      es := es + row;
      i := i + 1;
    }
    assert called[..i] == called;
  }

  /** A call pass of `_analyze_relationships`: each node in scope whose file can be analyzed. */
  method ParserCallsLoop(ns: seq<Node>, calls: map<string, seq<string>>, sc: CallScope) returns (es: seq<Edge>)
    ensures es == ParserCallEdges(ns, calls, sc)
  {
    es := [];
    var i := 0;
    while i < |ns|
      invariant 0 <= i <= |ns|
      invariant es == ScopeCallsUpTo(ns, calls, sc, i)
    {
      var a := ns[i];
      if InScope(sc, a) && a.file in calls {
        var more := ScopeEdgesLoop(a, ns, calls[a.file]);
        es := es + more;
      }
      i := i + 1;
    }
  }
}
