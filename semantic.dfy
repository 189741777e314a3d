/**
 * The semantic analyzer: after parsing, Renders edges are derived from the
 * JSX names recorded per file and Calls edges from same-name nodes.  The
 * node list and the file symbols are fixed when the analyzer is made;
 * only the edge list grows.
 */
module Semantic {
  import opened Wrappers
  import opened OrderedDict
  import opened Graph
  import opened Linking

  /** The edges `analyze` adds: all Renders edges, then all Calls edges. */
  function AnalysisEdges(ns: seq<Node>, fs: ODict<FileSymbols>): seq<Edge>
  {
    RendersEdges(ns, fs) + SameNameCalls(ns)
  }

  /** Every Renders edge has kind Renders. */
  lemma RendersKinds(ns: seq<Node>, fs: ODict<FileSymbols>)
    ensures forall e :: e in RendersEdges(ns, fs) ==> e.kind == Renders
  {
    RendersExactly(ns, fs);
  }

  /** Every Calls edge of the analyzer has kind Calls. */
  lemma CallsKinds(ns: seq<Node>)
    ensures forall e :: e in SameNameCalls(ns) ==> e.kind == Calls
  {
    SameNameCallsExactly(ns);
  }

  /**
   * `analyze` returns every Renders edge before every Calls edge: the
   * first `r` edges have kind Renders and the rest kind Calls, where `r`
   * is the number of Renders edges.
   */
  lemma RendersBeforeCalls(ns: seq<Node>, fs: ODict<FileSymbols>)
    ensures var es := AnalysisEdges(ns, fs);
      var r := |RendersEdges(ns, fs)|;
      && r <= |es|
      && (forall i :: 0 <= i < r ==> es[i].kind == Renders)
      && (forall i :: r <= i < |es| ==> es[i].kind == Calls)
  {
    var re: seq<Edge>, ce: seq<Edge> := RendersEdges(ns, fs), SameNameCalls(ns);
    RendersKinds(ns, fs);
    CallsKinds(ns);
    forall i | 0 <= i < |re| ensures (re + ce)[i].kind == Renders {
      assert (re + ce)[i] == re[i];
    }
    forall i | |re| <= i < |re + ce| ensures (re + ce)[i].kind == Calls {
      assert (re + ce)[i] == ce[i - |re|];
    }
  }

  /**
   * The analysis edges are exactly the Renders edges between a component
   * of a listed file and a component named by one of its JSX names, and
   * the Calls edges from each Function, Component or Class node to every
   * other node with its name.
   */
  lemma AnalysisExactly(ns: seq<Node>, fs: ODict<FileSymbols>)
    ensures forall e :: e in AnalysisEdges(ns, fs) <==>
      (exists f, a, b :: f in fs.keys && RendersPair(ns, fs, f, a, b) && e == Edge(a.id, b.id, Renders))
      || (exists i, j :: 0 <= i < |ns| && ns[i].kind in CallerKinds && SameNameTarget(ns, i, j) && e == Edge(ns[i].id, ns[j].id, Calls))
  {
    RendersExactly(ns, fs);
    SameNameCallsExactly(ns);
  }

  /**
   * The number of edges `analyze` adds: for each file and JSX name,
   * (components of the file) × (components of that name), plus one Calls
   * edge per (caller, other same-name node) pair.
   */
  lemma AnalysisCount(ns: seq<Node>, fs: ODict<FileSymbols>)
    ensures |AnalysisEdges(ns, fs)| == RendersCount(ns, fs, fs.keys) + |SameNameCalls(ns)|
  {
    RendersEdgeCount(ns, fs, fs.keys);
  }

  /** Without any recorded JSX names there are no Renders edges, only Calls edges. */
  lemma NoJsxOnlyCalls(ns: seq<Node>, fs: ODict<FileSymbols>)
    requires forall f :: f in fs.m ==> JsxNames(fs.m[f]) == []
    ensures AnalysisEdges(ns, fs) == SameNameCalls(ns)
  {
    NoJsxNoRenders(ns, fs, fs.keys);
  }

  lemma {:induction false} NoJsxNoRenders(ns: seq<Node>, fs: ODict<FileSymbols>, keys: seq<string>)
    requires forall f :: f in fs.m ==> JsxNames(fs.m[f]) == []
    ensures RendersOfKeys(ns, fs, keys) == []
    decreases |keys|
  {
    if keys != [] {
      var f := keys[|keys| - 1];
      NoJsxNoRenders(ns, fs, keys[..|keys| - 1]);
      if f in fs.m {
        RendersOfNamesNone(ns, ComponentsIn(ns, f), JsxNames(fs.m[f]));
      }
    }
  }

  /** `SemanticAnalyzer(nodes, file_symbols)`. */
  class SemanticAnalyzer {
    const nodes: seq<Node>
    const fileSymbols: ODict<FileSymbols>
    var edges: seq<Edge>

    /** `file_symbols or {}`: no table is an empty one. */
    constructor(nodes: seq<Node>, fileSymbols: Option<ODict<FileSymbols>>)
      ensures this.nodes == nodes
      ensures this.fileSymbols == if fileSymbols.Some? then fileSymbols.value else Empty()
      ensures edges == []
    {
      this.nodes := nodes;
      this.fileSymbols := if fileSymbols.Some? then fileSymbols.value else Empty();
      edges := [];
    }

    /** `_analyze_renders`: appends the Renders edges of the recorded JSX names. */
    method AnalyzeRenders()
      modifies this`edges
      ensures edges == old(edges) + RendersEdges(nodes, fileSymbols)
    {
      var es := RendersLoop(nodes, fileSymbols);
      edges := edges + es;
    }

    /** `_analyze_calls`: appends a Calls edge from each caller to each other node of its name. */
    method AnalyzeCalls()
      modifies this`edges
      ensures edges == old(edges) + SameNameCalls(nodes)
    {
      var es := SameNameCallsLoop(nodes);
      edges := edges + es;
    }

    /** `analyze()`: the Renders pass, then the Calls pass; the result is the edge list. */
    method Analyze() returns (r: seq<Edge>)
      modifies this`edges
      ensures edges == old(edges) + AnalysisEdges(nodes, fileSymbols)
      ensures r == edges
    {
      AnalyzeRenders();
      AnalyzeCalls();
      r := edges;
    }
  }
}
