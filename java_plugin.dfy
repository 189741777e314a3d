/**
 * `JavaPlugin`: turns the captures of a Java file (class names, the
 * annotation names of the file, and the mapping annotations paired with
 * their path literals) into class nodes followed by API endpoint nodes.
 * Unlike the JavaScript plugin it emits no module node and records no
 * symbols.
 */
module JavaPlugin {
  import opened Wrappers
  import opened Text
  import opened Graph
  import opened Classifier

  /** The capture lists of one file, in capture order. */
  datatype JavaCaptures = JavaCaptures(
    classNames: seq<string>,
    annNames: seq<string>,
    mapAnns: seq<string>,
    mapPaths: seq<string>)

  /** `can_parse`. */
  predicate CanParse(ext: string)
  {
    Lower(ext) == ".java"
  }

  /** `any(sub in text for text in texts)`. */
  predicate AnyContains(texts: seq<string>, sub: string)
  {
    exists i :: 0 <= i < |texts| && Contains(texts[i], sub)
  }

  /**
   * The kind of every class of the file: the annotations are those of the
   * whole file, so one mentioning `Controller` makes each class a
   * controller, else one mentioning `Service` makes each a service.
   */
  function ClassKind(anns: seq<string>): NodeKind
  {
    if AnyContains(anns, "Controller") then Controller
    else if AnyContains(anns, "Service") then Service
    else Class
  }

  function ClassNode(ctx: Ctx, rel: string, kind: NodeKind, name: string, isEntry: bool): Node
  {
    Node(HashOnlyId(ctx.md5, rel, name), kind, rel, name,
         Meta(Some(isEntry), DetermineLevel(JavaRules, ctx.ov, kind, rel, name, isEntry), None))
  }

  /** The class loop: a node for each non-empty class name, in order. */
  function ClassNodes(ctx: Ctx, rel: string, kind: NodeKind, isEntry: bool, names: seq<string>): seq<Node>
    decreases |names|
  {
    if names == [] then []
    else
      var prev := ClassNodes(ctx, rel, kind, isEntry, names[..|names| - 1]);
      var name := names[|names| - 1];
      if name == [] then prev else prev + [ClassNode(ctx, rel, kind, name, isEntry)]
  }

  /** The annotations that declare an endpoint. */
  const MappingAnnotations: seq<string> := ["GetMapping", "PostMapping", "PutMapping", "DeleteMapping", "RequestMapping"]

  /** `zip(a, b)`: pairs up to the shorter list's length. */
  function Zip(a: seq<string>, b: seq<string>): (r: seq<(string, string)>)
    ensures |r| == if |a| < |b| then |a| else |b|
    ensures forall i :: 0 <= i < |r| ==> r[i] == (a[i], b[i])
    decreases |a|
  {
    if a == [] || b == [] then [] else [(a[0], b[0])] + Zip(a[1..], b[1..])
  }

  /** An endpoint node: id from the path alone, no entry flag, the path recorded as `endpoint`. */
  function EndpointNode(ctx: Ctx, rel: string, path: string): Node
  {
    Node(ApiId(ctx.md5, path), ApiEndpoint, rel, path,
         Meta(None, DetermineLevel(JavaRules, ctx.ov, ApiEndpoint, rel, path, false), Some(path)))
  }

  /** The endpoint paths: the cleaned-up path of each mapping annotation, when not empty, in order. */
  function EndpointPaths(pairs: seq<(string, string)>): seq<string>
    decreases |pairs|
  {
    if pairs == [] then []
    else
      var prev := EndpointPaths(pairs[..|pairs| - 1]);
      if IsEndpointPair(pairs[|pairs| - 1]) then prev + [StripLiteral(pairs[|pairs| - 1].1)] else prev
  }

  /** A mapping annotation whose cleaned-up path is not empty. */
  predicate IsEndpointPair(pair: (string, string))
  {
    pair.0 in MappingAnnotations && StripLiteral(pair.1) != []
  }

  /** The endpoint nodes of a list of paths. */
  function EndpointNodes(ctx: Ctx, rel: string, paths: seq<string>): (r: seq<Node>)
    ensures |r| == |paths| && forall i :: 0 <= i < |paths| ==> r[i] == EndpointNode(ctx, rel, paths[i])
  {
    seq(|paths|, i requires 0 <= i < |paths| => EndpointNode(ctx, rel, paths[i]))
  }

  lemma EndpointNodesSnoc(ctx: Ctx, rel: string, paths: seq<string>, path: string)
    ensures EndpointNodes(ctx, rel, paths + [path]) == EndpointNodes(ctx, rel, paths) + [EndpointNode(ctx, rel, path)]
  {
  }

  /** `_process_captures`: the classes, then the endpoints. */
  function CaptureNodes(ctx: Ctx, rel: string, caps: JavaCaptures, isEntry: bool): seq<Node>
  {
    ClassNodes(ctx, rel, ClassKind(caps.annNames), isEntry, caps.classNames)
    + EndpointNodes(ctx, rel, EndpointPaths(Zip(caps.mapAnns, caps.mapPaths)))
  }

  /** `parse`: nothing when the Java grammar is unavailable. */
  function ParseNodes(ctx: Ctx, rel: string, isEntry: bool, syntax: Option<JavaCaptures>): seq<Node>
  {
    if syntax.None? then [] else CaptureNodes(ctx, rel, syntax.value, isEntry)
  }

  // ---------------------------------------------------------------------
  // The loops

  /** The class loop of `_process_captures`. */
  method ClassLoop(ctx: Ctx, caps: JavaCaptures, rel: string, isEntry: bool) returns (nodes: seq<Node>)
    ensures nodes == ClassNodes(ctx, rel, ClassKind(caps.annNames), isEntry, caps.classNames)
  {
    nodes := [];
    var i := 0;
    while i < |caps.classNames|
      invariant 0 <= i <= |caps.classNames|
      invariant nodes == ClassNodes(ctx, rel, ClassKind(caps.annNames), isEntry, caps.classNames[..i])
    {
      var name := caps.classNames[i];
      assert caps.classNames[..i + 1][..i] == caps.classNames[..i];
      if name != [] {
        var kind := ClassKind(caps.annNames);
        nodes := nodes + [ClassNode(ctx, rel, kind, name, isEntry)];
      }
      i := i + 1;
    }
    assert caps.classNames[..i] == caps.classNames;
  }

  /** The endpoint loop of `_process_captures`, over the zipped annotation and path captures. */
  method EndpointLoop(ctx: Ctx, rel: string, pairs: seq<(string, string)>) returns (nodes: seq<Node>)
    ensures nodes == EndpointNodes(ctx, rel, EndpointPaths(pairs))
  {
    nodes := [];
    ghost var paths: seq<string> := [];
    var i := 0;
    while i < |pairs|
      invariant 0 <= i <= |pairs|
      invariant paths == EndpointPaths(pairs[..i])
      invariant nodes == EndpointNodes(ctx, rel, paths)
    {
      assert pairs[..i + 1][..i] == pairs[..i];
      if IsEndpointPair(pairs[i]) {
        var path := StripLiteral(pairs[i].1);
        EndpointNodesSnoc(ctx, rel, paths, path);
        paths := paths + [path];
        nodes := nodes + [EndpointNode(ctx, rel, path)];
      }
      i := i + 1;
    }
    assert pairs[..i] == pairs;
  }

  /** `_process_captures`: the classes, then the endpoints. */
  method ProcessCaptures(ctx: Ctx, caps: JavaCaptures, rel: string, isEntry: bool) returns (nodes: seq<Node>)
    ensures nodes == CaptureNodes(ctx, rel, caps, isEntry)
  {
    var classNodes := ClassLoop(ctx, caps, rel, isEntry);
    var endpointNodes := EndpointLoop(ctx, rel, Zip(caps.mapAnns, caps.mapPaths));
    nodes := classNodes + endpointNodes;
  }

  /** `parse`: the capture nodes, or nothing when the Java grammar is unavailable. */
  method Parse(ctx: Ctx, rel: string, isEntry: bool, syntax: Option<JavaCaptures>) returns (nodes: seq<Node>)
    ensures nodes == ParseNodes(ctx, rel, isEntry, syntax)
  {
    nodes := [];
    if syntax.Some? {
      nodes := ProcessCaptures(ctx, syntax.value, rel, isEntry);
    }
  }

  // ---------------------------------------------------------------------
  // Properties

  /** Every class node has a non-empty name, belongs to the file, has the id of (file, name), the file's kind and the entry flag. */
  predicate ClassNodesOk(ns: seq<Node>, md5: Hasher, rel: string, kind: NodeKind, isEntry: bool)
  {
    forall i :: 0 <= i < |ns| ==>
      && ns[i].name != [] && ns[i].file == rel && ns[i].id == HashOnlyId(md5, rel, ns[i].name)
      && ns[i].kind == kind && ns[i].meta.isEntry == Some(isEntry) && ns[i].meta.endpoint.None?
  }

  lemma {:induction false} ClassNodesShape(ctx: Ctx, rel: string, kind: NodeKind, isEntry: bool, names: seq<string>)
    ensures ClassNodesOk(ClassNodes(ctx, rel, kind, isEntry, names), ctx.md5, rel, kind, isEntry)
    ensures NamesOf(ClassNodes(ctx, rel, kind, isEntry, names)) == NonEmpty(names)
    decreases |names|
  {
    if names != [] {
      ClassNodesShape(ctx, rel, kind, isEntry, names[..|names| - 1]);
      var prev := ClassNodes(ctx, rel, kind, isEntry, names[..|names| - 1]);
      var name := names[|names| - 1];
      if name != [] {
        var ns := prev + [ClassNode(ctx, rel, kind, name, isEntry)];
        assert forall i :: 0 <= i < |prev| ==> ns[i] == prev[i];
        assert ClassNodesOk(ns, ctx.md5, rel, kind, isEntry);
      }
    }
  }

  /**
   * The class kind rule: controller exactly when some annotation mentions
   * `Controller`; service exactly when none does and some mentions
   * `Service`; a plain class otherwise.
   */
  lemma ClassKindRule(anns: seq<string>)
    ensures ClassKind(anns) in {Controller, Service, Class}
    ensures ClassKind(anns) == Controller <==> exists a :: a in anns && Contains(a, "Controller")
    ensures ClassKind(anns) == Service <==>
      (forall a :: a in anns ==> !Contains(a, "Controller")) && exists a :: a in anns && Contains(a, "Service")
  {
    assert forall i :: 0 <= i < |anns| ==> anns[i] in anns;
  }

  /** A capture pair that declares an endpoint, and the endpoint path it declares. */
  predicate DeclaresEndpoint(pair: (string, string), p: string)
  {
    pair.0 in MappingAnnotations && StripLiteral(pair.1) == p && p != []
  }

  /** Every pair that declares an endpoint contributes its path. */
  lemma {:induction false} DeclaredEndpointsListed(pairs: seq<(string, string)>)
    ensures forall i :: 0 <= i < |pairs| && DeclaresEndpoint(pairs[i], StripLiteral(pairs[i].1)) ==>
      StripLiteral(pairs[i].1) in EndpointPaths(pairs)
    decreases |pairs|
  {
    if pairs != [] {
      var init := pairs[..|pairs| - 1];
      DeclaredEndpointsListed(init);
      forall i | 0 <= i < |pairs| - 1
        ensures pairs[i] == init[i]
      {
      }
    }
  }

  /** Every endpoint path comes from a pair that declares it. */
  lemma {:induction false} ListedEndpointsDeclared(pairs: seq<(string, string)>)
    ensures forall p :: p in EndpointPaths(pairs) ==> exists i :: 0 <= i < |pairs| && DeclaresEndpoint(pairs[i], p)
    decreases |pairs|
  {
    if pairs != [] {
      var init := pairs[..|pairs| - 1];
      ListedEndpointsDeclared(init);
      forall p | p in EndpointPaths(pairs)
        ensures exists i :: 0 <= i < |pairs| && DeclaresEndpoint(pairs[i], p)
      {
        if p in EndpointPaths(init) {
          var i :| 0 <= i < |init| && DeclaresEndpoint(init[i], p);
          assert pairs[i] == init[i];
        } else {
          assert DeclaresEndpoint(pairs[|pairs| - 1], p);
        }
      }
    }
  }

  /** The endpoint paths are exactly the non-empty cleaned-up paths paired with a mapping annotation. */
  lemma EndpointPathsExactly(pairs: seq<(string, string)>)
    ensures forall p :: p in EndpointPaths(pairs) <==> exists i :: 0 <= i < |pairs| && DeclaresEndpoint(pairs[i], p)
  {
    DeclaredEndpointsListed(pairs);
    ListedEndpointsDeclared(pairs);
  }

  /** A non-empty path that neither starts nor ends with a quote. */
  predicate CleanPath(p: string)
  {
    p != [] && p[0] !in Quotes && p[|p| - 1] !in Quotes
  }

  /** There are at most as many endpoint paths as pairs, and each is clean. */
  lemma {:induction false} EndpointPathsClean(pairs: seq<(string, string)>)
    ensures |EndpointPaths(pairs)| <= |pairs|
    ensures forall i :: 0 <= i < |EndpointPaths(pairs)| ==> CleanPath(EndpointPaths(pairs)[i])
    decreases |pairs|
  {
    if pairs != [] {
      EndpointPathsClean(pairs[..|pairs| - 1]);
    }
  }

  /**
   * Every endpoint node has the endpoint id of its name, that name as its
   * `endpoint`, no entry flag, and, absent overrides, the level `system`;
   * the names are the paths, in order.
   */
  predicate EndpointNodesOk(ns: seq<Node>, ctx: Ctx, rel: string)
  {
    forall i :: 0 <= i < |ns| ==>
      && ns[i].kind == ApiEndpoint && ns[i].file == rel && ns[i].id == ApiId(ctx.md5, ns[i].name)
      && ns[i].meta.endpoint == Some(ns[i].name) && ns[i].meta.isEntry.None?
      && (ctx.ov == NoOverrides ==> ns[i].meta.level == "system")
  }

  lemma EndpointNodesShape(ctx: Ctx, rel: string, paths: seq<string>)
    ensures EndpointNodesOk(EndpointNodes(ctx, rel, paths), ctx, rel)
    ensures NamesOf(EndpointNodes(ctx, rel, paths)) == paths
  {
    forall i | 0 <= i < |paths| {
      ApiEndpointIsSystem(JavaRules, rel, paths[i], false);
    }
  }

  /**
   * `zip` stops at the shorter list: mapping annotations or paths beyond
   * the other list's length contribute nothing.
   */
  lemma ZipTruncates(ctx: Ctx, rel: string, caps: JavaCaptures, isEntry: bool)
    ensures var n := if |caps.mapAnns| < |caps.mapPaths| then |caps.mapAnns| else |caps.mapPaths|;
      CaptureNodes(ctx, rel, caps, isEntry)
      == CaptureNodes(ctx, rel, caps.(mapAnns := caps.mapAnns[..n], mapPaths := caps.mapPaths[..n]), isEntry)
  {
    var n := if |caps.mapAnns| < |caps.mapPaths| then |caps.mapAnns| else |caps.mapPaths|;
    assert Zip(caps.mapAnns, caps.mapPaths) == Zip(caps.mapAnns[..n], caps.mapPaths[..n]);
  }

  /** Without the grammar the file yields no nodes; with it, the classes come before the endpoints. */
  lemma ParseShape(ctx: Ctx, rel: string, isEntry: bool, syntax: Option<JavaCaptures>)
    ensures syntax.None? ==> ParseNodes(ctx, rel, isEntry, syntax) == []
    ensures syntax.Some? ==>
      var ns := ParseNodes(ctx, rel, isEntry, syntax);
      var k := |ClassNodes(ctx, rel, ClassKind(syntax.value.annNames), isEntry, syntax.value.classNames)|;
      && k <= |ns|
      && ClassNodesOk(ns[..k], ctx.md5, rel, ClassKind(syntax.value.annNames), isEntry)
      && EndpointNodesOk(ns[k..], ctx, rel)
  {
    if syntax.Some? {
      var caps := syntax.value;
      var a := ClassNodes(ctx, rel, ClassKind(caps.annNames), isEntry, caps.classNames);
      var b := EndpointNodes(ctx, rel, EndpointPaths(Zip(caps.mapAnns, caps.mapPaths)));
      ClassNodesShape(ctx, rel, ClassKind(caps.annNames), isEntry, caps.classNames);
      EndpointNodesShape(ctx, rel, EndpointPaths(Zip(caps.mapAnns, caps.mapPaths)));
      assert (a + b)[..|a|] == a;
      assert (a + b)[|a|..] == b;
    }
  }
}
