/**
 * The graph the analyzer builds: typed nodes (one per module, class,
 * function, component, endpoint ...) and typed edges between node ids,
 * with the three node-id schemes the code uses.
 */
module Graph {
  import opened Wrappers
  import opened Text

  /** `NodeType`. */
  datatype NodeKind =
    | Module | Class | Function | Component | View | Controller | Service | Model | Template | ApiEndpoint

  /**
   * `ProjectType`: the project categories the scanner can detect, and
   * `UNKNOWN`.
   */
  datatype ProjectType =
    | SpringBoot | ReactVite | Angular | Django | ExpressNode | MavenJava | GradleJava | Android | PythonApp | Unknown

  /** `EdgeType`: `depends_on`, `renders`, `calls`. */
  datatype EdgeKind = DependsOn | Renders | Calls

  /**
   * A node's metadata dictionary: `is_entry` (absent on module nodes
   * created for imports and on endpoints), `c4_level`, and `endpoint` (on
   * endpoints only).
   */
  datatype Meta = Meta(isEntry: Option<bool>, level: string, endpoint: Option<string>)

  datatype Node = Node(id: string, kind: NodeKind, file: string, name: string, meta: Meta)

  datatype Edge = Edge(source: string, target: string, kind: EdgeKind)

  /**
   * One entry of the orchestrator's `file_symbols`: the optional
   * `jsx_components` list and the optional `declared` names (a Python set
   * turned into a list in no particular order, so a set here).
   */
  datatype FileSymbols = FileSymbols(jsx: Option<seq<string>>, declared: Option<set<string>>)

  /** The names of a node list, in order. */
  function NamesOf(ns: seq<Node>): (r: seq<string>)
    ensures |r| == |ns| && forall i :: 0 <= i < |ns| ==> r[i] == ns[i].name
    decreases |ns|
  {
    if ns == [] then [] else NamesOf(ns[..|ns| - 1]) + [ns[|ns| - 1].name]
  }

  /** The names of two node lists in turn are the names of each, in turn. */
  lemma NamesOfAppend(a: seq<Node>, b: seq<Node>)
    ensures NamesOf(a + b) == NamesOf(a) + NamesOf(b)
  {
  }

  predicate IsHexDigit(c: char)
  {
    '0' <= c <= '9' || 'a' <= c <= 'f'
  }

  /** `hashlib.md5(text.encode()).hexdigest()`: 32 lower-case hex digits. */
  type Digest = s: string | |s| == 32 && forall i :: 0 <= i < |s| ==> IsHexDigit(s[i])
    witness "00000000000000000000000000000000"

  /** The MD5 hex digest, as an uninterpreted deterministic function. */
  type Hasher = string -> Digest

  /** `file_path.replace('/', '_').replace('.', '_')`. */
  function Flatten(file: string): (r: string)
    ensures |r| == |file|
    ensures forall i :: 0 <= i < |r| ==> r[i] != '/' && r[i] != '.'
  {
    ReplaceChar(ReplaceChar(file, '/', '_'), '.', '_')
  }

  /**
   * The id of the orchestrator and of the Python plugin:
   * `<flattened path>_<name>_<first 8 hex digits of md5("path:name")>`.
   */
  function PrefixedId(md5: Hasher, file: string, name: string): string
  {
    Flatten(file) + "_" + name + "_" + md5(file + ":" + name)[..8]
  }

  /** The id of the JavaScript and Java plugins: the first 12 hex digits of `md5("path:name")`. */
  function HashOnlyId(md5: Hasher, file: string, name: string): string
  {
    md5(file + ":" + name)[..12]
  }

  /** The id of an API endpoint: `api_` and the first 8 hex digits of `md5(path)`. */
  function ApiId(md5: Hasher, path: string): string
  {
    "api_" + md5(path)[..8]
  }

  /** Each scheme's layout: determined by (file, name) or by the path, with the lengths the formats give. */
  lemma IdLayouts(md5: Hasher, file: string, name: string, path: string)
    ensures |PrefixedId(md5, file, name)| == |file| + |name| + 10
    ensures PrefixedId(md5, file, name)[|file|] == '_'
    ensures PrefixedId(md5, file, name)[|file| + |name| + 1] == '_'
    ensures |HashOnlyId(md5, file, name)| == 12
    ensures forall i :: 0 <= i < 12 ==> HashOnlyId(md5, file, name)[i] != '_'
    ensures |ApiId(md5, path)| == 12 && ApiId(md5, path)[3] == '_'
  {
  }

  /**
   * The schemes never produce the same id: a plugin's hash-only id has no
   * `_`, and a prefixed id differs from every endpoint id in its first
   * three characters or in its length.
   */
  lemma IdSchemesDisjoint(md5: Hasher, file: string, name: string, file2: string, name2: string, path: string)
    ensures HashOnlyId(md5, file, name) != PrefixedId(md5, file2, name2)
    ensures HashOnlyId(md5, file, name) != ApiId(md5, path)
    ensures PrefixedId(md5, file2, name2) != ApiId(md5, path)
  {
    var h := HashOnlyId(md5, file, name);
    var p := PrefixedId(md5, file2, name2);
    var a := ApiId(md5, path);
    assert p[|file2|] == '_';
    assert a[3] == '_';
    if |p| == 12 {
      assert |file2| + |name2| == 2;
      if |file2| == 0 {
        assert p[0] == '_';
      } else if |file2| == 1 {
        assert p[1] == '_';
      } else {
        assert p[2] == '_';
      }
      assert p[..3] != a[..3];
    }
  }
}
