/**
 * The top-level analyzer: choosing one project type from the detected
 * ones, naming its language and framework, and summarising the graph the
 * parser produced.
 */
module Analyzer {
  import opened Wrappers
  import opened Graph
  import opened ParseState

  // ---------------------------------------------------------------------
  // `_determine_project_type`

  /** The project types from most to least specific. */
  const PriorityOrder: seq<ProjectType> :=
    [SpringBoot, ReactVite, Angular, Django, ExpressNode, MavenJava, GradleJava, Android, PythonApp]

  /** The first type of `order` that was detected, if any. */
  function FirstDetected(order: seq<ProjectType>, d: set<ProjectType>): (r: Option<ProjectType>)
    ensures r.None? <==> forall i :: 0 <= i < |order| ==> order[i] !in d
    ensures r.Some? ==> exists i :: 0 <= i < |order| && order[i] == r.value && r.value in d && forall j :: 0 <= j < i ==> order[j] !in d
    decreases |order|
  {
    if order == [] then None
    else if order[0] in d then Some(order[0])
    else
      var r := FirstDetected(order[1..], d);
      assert forall i :: 1 <= i < |order| ==> order[i] == order[1..][i - 1];
      if r.Some? then
        var i :| 0 <= i < |order[1..]| && order[1..][i] == r.value && r.value in d && forall j :: 0 <= j < i ==> order[1..][j] !in d;
        assert order[i + 1] == r.value;
        r
      else r
  }

  /** The priority loop of `_determine_project_type`: the first type of `order` that was detected. */
  method FirstDetectedLoop(order: seq<ProjectType>, d: set<ProjectType>) returns (r: Option<ProjectType>)
    ensures r == FirstDetected(order, d)
  {
    var i := 0;
    while i < |order|
      invariant 0 <= i <= |order|
      invariant FirstDetected(order, d) == FirstDetected(order[i..], d)
    {
      if order[i] in d {
        return Some(order[i]);
      }
      assert order[i..][1..] == order[i + 1..];
      i := i + 1;
    }
    return None;
  }

  /** Every project type but Unknown is in the priority list. */
  lemma PriorityCoversAllButUnknown(t: ProjectType)
    ensures t in PriorityOrder <==> t != Unknown
  {
  }

  /**
   * The chosen type: Unknown when nothing was detected, else the first
   * detected type in priority order.  The fallback to the first detected
   * type is reached only when Unknown alone was detected, so it is Unknown.
   */
  function ChosenType(d: set<ProjectType>): ProjectType
  {
    if d == {} then Unknown
    else
      match FirstDetected(PriorityOrder, d)
      case Some(t) => t
      case None => Unknown
  }

  /** When no listed type was detected but some type was, Unknown alone was detected. */
  lemma FallbackOnlyUnknown(d: set<ProjectType>)
    requires d != {} && FirstDetected(PriorityOrder, d).None?
    ensures d == {Unknown}
  {
    forall t | t in d ensures t == Unknown {
      PriorityCoversAllButUnknown(t);
    }
  }

  /** An empty detected set gives Unknown. */
  lemma EmptyGivesUnknown()
    ensures ChosenType({}) == Unknown
  {
  }

  /** A non-empty detected set gives one of its own members. */
  lemma ChosenIsDetected(d: set<ProjectType>)
    requires d != {}
    ensures ChosenType(d) in d
  {
    if FirstDetected(PriorityOrder, d).None? {
      FallbackOnlyUnknown(d);
    }
  }

  /** The position of a listed type in the priority list. */
  function Rank(t: ProjectType): nat
  {
    match t
    case SpringBoot => 0
    case ReactVite => 1
    case Angular => 2
    case Django => 3
    case ExpressNode => 4
    case MavenJava => 5
    case GradleJava => 6
    case Android => 7
    case PythonApp => 8
    case Unknown => 9
  }

  /** The priority list holds each type at its rank, so no type is listed twice. */
  lemma PriorityRanks()
    ensures forall k :: 0 <= k < |PriorityOrder| ==> Rank(PriorityOrder[k]) == k
  {
  }

  /** In a list without repeats, a detected type beats every type listed after it. */
  lemma FirstBeatsLater(order: seq<ProjectType>, d: set<ProjectType>, i: nat, j: nat)
    requires i < j < |order| && order[i] in d
    requires forall k :: 0 <= k < |order| ==> Rank(order[k]) == k
    ensures FirstDetected(order, d).Some? && FirstDetected(order, d).value != order[j]
  {
    var r := FirstDetected(order, d);
    var k :| 0 <= k < |order| && order[k] == r.value && r.value in d && forall m :: 0 <= m < k ==> order[m] !in d;
    assert k <= i;
    assert Rank(order[k]) != Rank(order[j]);
  }

  /** A detected type earlier in the priority list beats every later one. */
  lemma PriorityRespected(d: set<ProjectType>, i: nat, j: nat)
    requires i < j < |PriorityOrder| && PriorityOrder[i] in d
    ensures ChosenType(d) != PriorityOrder[j]
  {
    PriorityRanks();
    FirstBeatsLater(PriorityOrder, d, i, j);
  }

  /** Spring Boot beats plain Maven, and React/Vite beats Express. */
  lemma PriorityExamples(d: set<ProjectType>)
    ensures SpringBoot in d ==> ChosenType(d) != MavenJava
    ensures ReactVite in d ==> ChosenType(d) != ExpressNode
  {
    if SpringBoot in d {
      PriorityRespected(d, 0, 5);
    }
    if ReactVite in d {
      PriorityRespected(d, 1, 4);
    }
  }

  // ---------------------------------------------------------------------
  // `_derive_language_and_framework`

  /** The (language, framework) table. */
  const LanguageTable: map<ProjectType, (string, string)> := map[
    ReactVite := ("typescript", "react"),
    Angular := ("typescript", "angular"),
    ExpressNode := ("javascript", "express"),
    Django := ("python", "django"),
    PythonApp := ("python", "python"),
    SpringBoot := ("java", "spring_boot"),
    MavenJava := ("java", "java"),
    GradleJava := ("java", "java"),
    Android := ("java", "android")]

  /** `mapping.get(project_type, ("unknown", "unknown"))`. */
  function LanguageAndFramework(pt: ProjectType): (string, string)
  {
    if pt in LanguageTable then LanguageTable[pt] else ("unknown", "unknown")
  }

  /**
   * The table agrees with the plugin the sweep uses: a Java, Python or
   * script language exactly for the types whose plugin parses it, except
   * that Android is named Java but has no plugin; only Unknown is unlisted.
   */
  lemma LanguageMatchesPlugin(pt: ProjectType)
    ensures LanguageAndFramework(pt) == ("unknown", "unknown") <==> pt == Unknown
    ensures LanguageAndFramework(pt).0 == "java" <==> LanguagePlugin(pt) == Some(JavaLang) || pt == Android
    ensures LanguageAndFramework(pt).0 == "python" <==> LanguagePlugin(pt) == Some(PythonLang)
    ensures LanguageAndFramework(pt).0 in ["typescript", "javascript"] <==> LanguagePlugin(pt) == Some(JavaScriptLang)
  {
    match pt
    case ReactVite =>
    case Angular =>
    case ExpressNode =>
    case Django =>
    case PythonApp =>
    case SpringBoot =>
    case MavenJava =>
    case GradleJava =>
    case Android =>
    case Unknown =>
  }

  // ---------------------------------------------------------------------
  // `WorkflowGraphGenerator.generate`

  /** The `metadata` object of the graph. */
  datatype Metadata = Metadata(totalNodes: nat, totalEdges: nat, nodeTypes: set<NodeKind>, edgeTypes: set<EdgeKind>)

  /** The graph handed to the front end: the node and edge lists and their metadata. */
  datatype GraphData = GraphData(nodes: seq<Node>, edges: seq<Edge>, metadata: Metadata)

  /** The distinct kinds of a node list. */
  function NodeKinds(ns: seq<Node>): set<NodeKind>
    decreases |ns|
  {
    if ns == [] then {} else NodeKinds(ns[..|ns| - 1]) + {ns[|ns| - 1].kind}
  }

  /** The distinct kinds of an edge list. */
  function EdgeKinds(es: seq<Edge>): set<EdgeKind>
    decreases |es|
  {
    if es == [] then {} else EdgeKinds(es[..|es| - 1]) + {es[|es| - 1].kind}
  }

  lemma {:induction false} NodeKindsBound(ns: seq<Node>)
    ensures |NodeKinds(ns)| <= |ns|
    decreases |ns|
  {
    if ns != [] {
      NodeKindsBound(ns[..|ns| - 1]);
    }
  }

  lemma {:induction false} NodeKindsExactly(ns: seq<Node>)
    ensures forall k :: k in NodeKinds(ns) <==> exists i :: 0 <= i < |ns| && ns[i].kind == k
    decreases |ns|
  {
    if ns != [] {
      var init := ns[..|ns| - 1];
      NodeKindsExactly(init);
      forall k | k in NodeKinds(ns) ensures exists i :: 0 <= i < |ns| && ns[i].kind == k {
        if k != ns[|ns| - 1].kind {
          assert NodeKinds(ns) == NodeKinds(init) + {ns[|ns| - 1].kind};
          assert k in NodeKinds(init);
          var i :| 0 <= i < |init| && init[i].kind == k;
          assert ns[i] == init[i];
        }
      }
      forall k | exists i :: 0 <= i < |ns| && ns[i].kind == k ensures k in NodeKinds(ns) {
        var i :| 0 <= i < |ns| && ns[i].kind == k;
        if i < |init| {
          assert init[i] == ns[i];
        }
      }
    }
  }

  lemma {:induction false} EdgeKindsBound(es: seq<Edge>)
    ensures |EdgeKinds(es)| <= |es|
    decreases |es|
  {
    if es != [] {
      EdgeKindsBound(es[..|es| - 1]);
    }
  }

  lemma {:induction false} EdgeKindsExactly(es: seq<Edge>)
    ensures forall k :: k in EdgeKinds(es) <==> exists i :: 0 <= i < |es| && es[i].kind == k
    decreases |es|
  {
    if es != [] {
      var init := es[..|es| - 1];
      EdgeKindsExactly(init);
      forall k | k in EdgeKinds(es) ensures exists i :: 0 <= i < |es| && es[i].kind == k {
        if k != es[|es| - 1].kind {
          assert EdgeKinds(es) == EdgeKinds(init) + {es[|es| - 1].kind};
          assert k in EdgeKinds(init);
          var i :| 0 <= i < |init| && init[i].kind == k;
          assert es[i] == init[i];
        }
      }
      forall k | exists i :: 0 <= i < |es| && es[i].kind == k ensures k in EdgeKinds(es) {
        var i :| 0 <= i < |es| && es[i].kind == k;
        if i < |init| {
          assert init[i] == es[i];
        }
      }
    }
  }

  /** `generate()`: the lists, their lengths and their distinct kinds. */
  function Generate(ns: seq<Node>, es: seq<Edge>): GraphData
  {
    GraphData(ns, es, Metadata(|ns|, |es|, NodeKinds(ns), EdgeKinds(es)))
  }

  /**
   * The counts are the list lengths; the kind sets hold exactly the kinds
   * present, so they are empty exactly for empty lists and never larger
   * than the lists.
   */
  lemma GenerateSummary(ns: seq<Node>, es: seq<Edge>)
    ensures var md := Generate(ns, es).metadata;
      && md.totalNodes == |ns| && md.totalEdges == |es|
      && (forall k :: k in md.nodeTypes <==> exists i :: 0 <= i < |ns| && ns[i].kind == k)
      && (forall k :: k in md.edgeTypes <==> exists i :: 0 <= i < |es| && es[i].kind == k)
      && (md.nodeTypes == {} <==> ns == []) && (md.edgeTypes == {} <==> es == [])
      && |md.nodeTypes| <= |ns| && |md.edgeTypes| <= |es|
  {
    NodeKindsExactly(ns);
    NodeKindsBound(ns);
    EdgeKindsExactly(es);
    EdgeKindsBound(es);
    if ns != [] {
      assert ns[0].kind in NodeKinds(ns);
    }
    if es != [] {
      assert es[0].kind in EdgeKinds(es);
    }
  }

  // ---------------------------------------------------------------------
  // `CodebaseAnalyzer`

  /** The analyzer's project-type state; `detected` is what the scanner found. */
  class CodebaseAnalyzer {
    const detected: set<ProjectType>
    var projectType: ProjectType

    constructor(detected: set<ProjectType>)
      ensures this.detected == detected && projectType == Unknown
    {
      this.detected := detected;
      projectType := Unknown;
    }

    /** `_determine_project_type()`. */
    method DetermineProjectType()
      modifies this`projectType
      ensures projectType == ChosenType(detected)
    {
      if detected == {} {
        projectType := Unknown;
        return;
      }
      var first := FirstDetectedLoop(PriorityOrder, detected);
      if first.Some? {
        projectType := first.value;
        return;
      }
      FallbackOnlyUnknown(detected);
      var t :| t in detected;
      projectType := t;
    }
  }
}
