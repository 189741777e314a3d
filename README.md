# dev-scope analyzer: graph construction, modelled in Dafny

dev-scope reads a software project and draws it as a graph. Its nodes are
modules, classes, functions, React components, Django views, Spring
controllers and services, HTML templates and REST endpoints. Its edges are
`depends_on` (one file imports another), `renders` (a component uses another
in JSX) and `calls` (a function calls a name). This project models the part of
the analyzer that builds that graph, and proves properties of the model:

- `LanguageParser` (`analyzer/parser.py`), as a class over its own fields (`nodes`,
  `edges`, `node_registry`, `file_symbols`, `module_index`, `parsed_files`,
  `file_cache`). Each of its methods is proved against a function on the
  parser state (`ParseState.PState`):
  - the processed-once / cache-hit protocol of `_parse_file`;
  - the choice of language plugin;
  - the project-type sweep of `_parse_additional_files`;
  - the module index and import resolution;
  - turning JavaScript and Java captures into nodes;
  - the Renders and Calls passes of `_analyze_relationships`.
- The three language plugins (`JavaScriptPlugin`, `JavaPlugin`, `PythonPlugin`):
  nodes built from the syntax captures, their ids, and the symbols they record.
- The four copies of `_determine_c4_level` (the parser's and each plugin's),
  as one decision list with a variant for each copy's extra container test.
- `SemanticAnalyzer` (`analyzer/semantic_analyzer.py`): Renders and Calls edges
  derived from the parsed nodes and file symbols.
- From `CodebaseAnalyzer` (`analyzer/main.py`): choosing the project type by
  priority, the language and framework table, and the metadata of the
  generated graph.

The outside world enters as values:
- an `Env` holding the files that exist, their text, the syntax captures of
  each file, and the names each file calls;
- a digest function standing for md5 (`Graph.Hasher`).

A Python `dict` whose iteration order matters is an `OrderedDict.ODict`: a map
plus the keys in insertion order.

Where the project's documented behaviour and its code disagree, the model follows the code:
- A bare import specifier is resolved in this order:
  1. the exact module-index key;
  2. the first index key, in insertion order, that ends with it;
  3. the files under `src`, `app` and `lib` (`analyzer/parser.py:746-759`).
- A Python function whose name contains `view` becomes a `view` node. Its
  C4 level is `component`, not `code` (`analyzer/plugins/languages/python_plugin.py:93`, `:139-140`).
- The JavaScript plugin decides "component" on the suffix with its case kept;
  the parser lower-cases the suffix it passes to `_process_js_captures` (`javascript_plugin.py:56`, `parser.py:334`).
- `_parse_file` extends `self.nodes` with the `(nodes, symbols)` tuple the Python
  plugin returns. So a `.py` file adds two non-node items.
  - Registering them raises, which leaves the registry and the cache unwritten.
  - `_analyze_relationships` later raises on those items.
  
  The model keeps this as written (`ParseState.Entry`, `ParseState.CacheWrittenUnlessPython`,
  `Parser.PythonFileMakesAnalysisRaise`).
- The parser's Java class kind compares annotation names exactly
  (`Controller`, `RestController`, `Service`). The Java plugin looks for the
  substrings `Controller` and `Service`. Both rules are modelled, and
  `ParserCaptures.KindRulesDiffer` shows an annotation on which they disagree.

## Model

| member | source | states |
|---|---|---|
| Analyzer.ChosenType | analyzer/main.py:121-148 | `_determine_project_type` on the detected set; its properties are in `Analyzer.EmptyGivesUnknown`, `Analyzer.ChosenIsDetected`, `Analyzer.PriorityRespected` and `Analyzer.FallbackOnlyUnknown` |
| Analyzer.FirstDetected | analyzer/main.py:140-144 | none is found iff no type of the order was detected; a found type was detected and no detected type comes before it in the order |
| Analyzer.FirstDetectedLoop | analyzer/main.py:140-144 | the priority loop returns the first detected type of the order, or nothing |
| Analyzer.PriorityCoversAllButUnknown | analyzer/main.py:128-138 | the priority list names every project type except `UNKNOWN` |
| Analyzer.FallbackOnlyUnknown | analyzer/main.py:146-147 | the fallback to the first detected type is reached only when `UNKNOWN` is the sole detected type |
| Analyzer.EmptyGivesUnknown | analyzer/main.py:123-125 | with nothing detected the project type is `UNKNOWN` |
| Analyzer.ChosenIsDetected | analyzer/main.py:121-148 | when something was detected, the chosen type is one of the detected types |
| Analyzer.FirstBeatsLater | analyzer/main.py:140-144 | in an order of distinct types, a detected type earlier in the order keeps every later type from being chosen |
| Analyzer.PriorityRespected | analyzer/main.py:127-144 | a detected type of higher priority always beats a type of lower priority |
| Analyzer.PriorityExamples | analyzer/main.py:128-134 | a Spring Boot project is never classified as plain Maven, and a React/Vite project never as Express |
| Analyzer.LanguageAndFramework | analyzer/main.py:156-168 | the language and framework of a project type, `unknown` for a type outside the table; `Analyzer.LanguageMatchesPlugin` states its language column |
| Analyzer.LanguageMatchesPlugin | analyzer/main.py:156-168 | the language is `unknown` exactly for `UNKNOWN`; it is `java` exactly for the types swept with the Java plugin, plus Android; `python` exactly for the Python ones; `typescript`/`javascript` exactly for the JavaScript ones |
| Analyzer.NodeKindsBound | analyzer/main.py:39 | there are no more distinct node kinds than nodes |
| Analyzer.NodeKindsExactly | analyzer/main.py:39 | a kind is listed iff some node has it |
| Analyzer.EdgeKindsBound | analyzer/main.py:40 | there are no more distinct edge kinds than edges |
| Analyzer.EdgeKindsExactly | analyzer/main.py:40 | a kind is listed iff some edge has it |
| Analyzer.Generate | analyzer/main.py:27-42 | `generate()`: the nodes, the edges and their metadata; `Analyzer.GenerateSummary` states the metadata |
| Analyzer.GenerateSummary | analyzer/main.py:27-42 | the metadata counts the nodes and edges and lists exactly the node and edge kinds that occur; these lists are empty iff there are no nodes or no edges |
| Analyzer.CodebaseAnalyzer.constructor | analyzer/main.py:48-54 | a new analyzer's project type is `UNKNOWN` |
| Analyzer.CodebaseAnalyzer.DetermineProjectType | analyzer/main.py:121-148 | sets the project type to the chosen type of the detected set: `UNKNOWN` if none, else the first in priority order |
| Classifier.DetermineLevel | analyzer/parser.py:129-175 | `_determine_c4_level` in each of its four copies (the variant picks the copy); `Classifier.PathOverrideWins`, `Classifier.KindOverrideNext`, `Classifier.ApiEndpointIsSystem`, `Classifier.ComponentKindsAreComponents`, `Classifier.ModuleLevels` and `Classifier.VariantsAgreeOffContainerRule` state its levels |
| Classifier.PathOverrideFirstMatch | analyzer/parser.py:132-135 | a path override applies iff some rule has a non-empty pattern in the path, ignoring case; the level given is that of the first such rule |
| Classifier.KindOverrideFirstMatch | analyzer/parser.py:137-139 | a kind override applies iff some rule lists the node kind; the level given is that of the first such rule |
| Classifier.PathOverrideWins | analyzer/parser.py:129-141 | the first matching path rule decides the level, before every built-in rule and every kind rule, in all four copies |
| Classifier.KindOverrideNext | analyzer/parser.py:136-139 | with no path rule matching, the first kind rule listing the kind decides the level |
| Classifier.NoOverrideGivesBuiltinLevel | analyzer/parser.py:143-175 | with no override matching, the level is one of system, container, component, code |
| Classifier.ApiEndpointIsSystem | analyzer/parser.py:144-145 | an API endpoint is at system level |
| Classifier.ComponentKindsAreComponents | analyzer/parser.py:147-162 | a component, view, controller or service is component-level unless it is an entry that passes the container test, and container-level exactly then |
| Classifier.NonEntryCodeKindsAreCode | analyzer/parser.py:170-175 | a function, class, model or template that is not an entry is code-level |
| Classifier.ModuleLevels | analyzer/parser.py:148-168 | a module is container-level if it passes the container test, else component-level when its path names a feature directory, else code-level |
| Classifier.VariantsAgreeOffContainerRule | analyzer/plugins/languages/java_plugin.py:150-172 | off the container test, the four copies agree (any kind but module, not an entry) |
| Classifier.JavaScriptContainerTest | analyzer/plugins/languages/javascript_plugin.py:211-217 | the JavaScript plugin's container test is the name or the main/app file test it lists, and it implies the parser's test |
| Classifier.PythonEntryFilesAreContainers | analyzer/plugins/languages/python_plugin.py:131-137 | a Python module in `main.py`, `app.py` or `urls.py` is container-level |
| Classifier.SpringBootApplicationIsContainer | analyzer/plugins/languages/java_plugin.py:154-160 | an entry or module whose name contains `springbootapplication` is container-level in the Java plugin and in the parser |
| Graph.Flatten | analyzer/parser.py:835 | the flattened path keeps its length and has no `/` or `.` |
| Graph.IdLayouts | analyzer/parser.py:830-835 | parser ids are `file_name_hash8`, with `_` at the two join points; plugin ids are 12 hex characters; endpoint ids are `api_` plus 8 hex characters |
| Graph.IdSchemesDisjoint | analyzer/plugins/languages/javascript_plugin.py:185-188 | the three id schemes never produce the same id |
| JavaPlugin.ClassKind | analyzer/plugins/languages/java_plugin.py:90-96 | the class kind by annotation substrings; `JavaPlugin.ClassKindRule` states it |
| JavaPlugin.ParseNodes | analyzer/plugins/languages/java_plugin.py:24-48 | the nodes `parse` returns; `JavaPlugin.ParseShape` and `JavaPlugin.EndpointPathsExactly` state them |
| JavaPlugin.Zip | analyzer/plugins/languages/java_plugin.py:106 | `zip` pairs the i-th elements and stops at the shorter list |
| JavaPlugin.EndpointNodes | analyzer/plugins/languages/java_plugin.py:106-120 | one endpoint node per path, in order |
| JavaPlugin.ClassLoop | analyzer/plugins/languages/java_plugin.py:85-103 | the class loop yields the class nodes of the non-empty class names, all of the file's single kind |
| JavaPlugin.EndpointLoop | analyzer/plugins/languages/java_plugin.py:106-120 | the mapping loop yields one endpoint node per accepted mapping path |
| JavaPlugin.ProcessCaptures | analyzer/plugins/languages/java_plugin.py:79-122 | the class nodes, then the endpoint nodes |
| JavaPlugin.Parse | analyzer/plugins/languages/java_plugin.py:24-48 | no nodes when the grammar or the parse fails, otherwise the nodes of the captures |
| JavaPlugin.ClassNodesShape | analyzer/plugins/languages/java_plugin.py:85-103 | each class node has the file's kind, the file, the entry flag, a 12-character id and its level; the names are the non-empty class names in order |
| JavaPlugin.ClassKindRule | analyzer/plugins/languages/java_plugin.py:90-96 | controller iff some annotation contains `Controller`; service iff none does and some contains `Service`; class otherwise |
| JavaPlugin.DeclaredEndpointsListed | analyzer/plugins/languages/java_plugin.py:106-113 | every mapping pair with a known annotation and a non-empty stripped path contributes that path |
| JavaPlugin.ListedEndpointsDeclared | analyzer/plugins/languages/java_plugin.py:106-113 | every endpoint path comes from such a pair |
| JavaPlugin.EndpointPathsExactly | analyzer/plugins/languages/java_plugin.py:106-113 | a path is an endpoint iff some pair declares it |
| JavaPlugin.EndpointPathsClean | analyzer/plugins/languages/java_plugin.py:110-113 | there are at most as many endpoints as pairs; each path is non-empty and neither starts nor ends with a quote |
| JavaPlugin.EndpointNodesShape | analyzer/plugins/languages/java_plugin.py:114-120 | each endpoint node has kind endpoint, id `api_` plus the path's hash, system level and the endpoint path; the names are the paths |
| JavaPlugin.ZipTruncates | analyzer/plugins/languages/java_plugin.py:106 | mapping captures beyond the shorter list are ignored |
| JavaPlugin.ParseShape | analyzer/plugins/languages/java_plugin.py:24-48 | the result is the well-formed class nodes followed by the well-formed endpoint nodes, or empty on failure |
| JsPlugin.KindOf | analyzer/plugins/languages/javascript_plugin.py:135-177 | the kind of a class, function or JSX node; `JsPlugin.FunctionKindRule` states the function case |
| JsPlugin.ParseNodes | analyzer/plugins/languages/javascript_plugin.py:30-47 | the nodes `parse` returns; `JsPlugin.ParseStartsWithModule` and `JsPlugin.CaptureNodesNames` state them |
| JsPlugin.NodesForNames | analyzer/plugins/languages/javascript_plugin.py:135-177 | a loop's nodes are named by the non-empty captured names, in order |
| JsPlugin.NodesForShape | analyzer/plugins/languages/javascript_plugin.py:135-177 | each loop node has the role's kind, the file, a 12-character id of file and name, and its level |
| JsPlugin.FunctionKindRule | analyzer/plugins/languages/javascript_plugin.py:155-156 | a function is a component iff its name starts with an ASCII upper-case letter and the suffix is `.tsx` or `.jsx` |
| JsPlugin.NewJsxNamesExactly | analyzer/plugins/languages/javascript_plugin.py:166-170 | a JSX name makes a node iff it is non-empty and not declared, and no name makes two |
| JsPlugin.ParseStartsWithModule | analyzer/plugins/languages/javascript_plugin.py:30-47 | the first node is the file's module node (id of `module`, name the stem); it is the only node when the grammar fails to load |
| JsPlugin.CaptureNodesNames | analyzer/plugins/languages/javascript_plugin.py:128-179 | nodes are the classes, then the functions, then the new JSX names |
| JsPlugin.JavaScriptPlugin.constructor | analyzer/plugins/languages/javascript_plugin.py:60 | a new plugin has no file symbols |
| JsPlugin.JavaScriptPlugin.DeclaringLoop | analyzer/plugins/languages/javascript_plugin.py:135-163 | the class or function loop yields the nodes of the non-empty names and adds those names to the declared set |
| JsPlugin.JavaScriptPlugin.JsxLoop | analyzer/plugins/languages/javascript_plugin.py:166-177 | the JSX loop yields component nodes for the new JSX names only |
| JsPlugin.JavaScriptPlugin.ProcessCaptures | analyzer/plugins/languages/javascript_plugin.py:128-179 | the nodes of the three capture loops, in order |
| JsPlugin.JavaScriptPlugin.Parse | analyzer/plugins/languages/javascript_plugin.py:24-69 | returns the parse nodes; on success records the declared names (the names of the non-module nodes) and the imports for the file; on grammar failure records nothing |
| Linking.ComponentsIn | analyzer/semantic_analyzer.py:34 | exactly the component nodes of the file |
| Linking.ComponentsNamed | analyzer/semantic_analyzer.py:38 | exactly the component nodes with the name |
| Linking.Named | analyzer/parser.py:801 | exactly the nodes with the name |
| Linking.ProductExactly | analyzer/semantic_analyzer.py:39-41 | the nested loops make one edge per (source, target) pair: there are `|srcs| * |tgts|` of them |
| Linking.RendersOfNamesExactly | analyzer/semantic_analyzer.py:37-41 | one file's Renders edges go from its components to the components named in its JSX list |
| Linking.RendersOfKeysExactly | analyzer/semantic_analyzer.py:30-41 | the Renders edges over a list of files are the pairs each file gives |
| Linking.RendersExactly | analyzer/semantic_analyzer.py:28-41 | an edge is a Renders edge iff some file lists a JSX name, the source is one of that file's components, and the target is a component with that name |
| Linking.RendersOfNamesCount | analyzer/semantic_analyzer.py:37-41 | a file contributes (its components) × (components named by each JSX name) edges, duplicates included |
| Linking.RendersEdgeCount | analyzer/semantic_analyzer.py:28-41 | the number of Renders edges is the sum of those products |
| Linking.RendersOfNamesNone | analyzer/semantic_analyzer.py:32-36 | a file with no JSX names or no components contributes nothing |
| Linking.OthersNamedExactly | analyzer/semantic_analyzer.py:49 | the targets of a caller are the other nodes (by position) with its name |
| Linking.CallsUpToExactly | analyzer/semantic_analyzer.py:46-51 | the Calls edges of the first m nodes are exactly those from those callers to their same-name targets |
| Linking.SameNameCallsExactly | analyzer/semantic_analyzer.py:46-51 | an edge is a Calls edge iff it goes from a function, component or class to another node of the same name |
| Linking.NoSelfCalls | analyzer/semantic_analyzer.py:49 | with distinct ids, no Calls edge is a self-loop |
| Linking.DuplicateIdsGiveSelfEdge | analyzer/semantic_analyzer.py:49 | two node objects that share an id give a self-loop, since the test is on identity |
| Linking.ScopeEdgesExactly | analyzer/parser.py:800-803 | a scope node calls exactly the nodes named by a called name |
| Linking.ScopeCallsUpToExactly | analyzer/parser.py:652-659 | the call edges of the first m nodes are those of their in-scope pairs |
| Linking.ParserCallsExactly | analyzer/parser.py:651-659 | an edge is a parser Calls edge iff its source is in scope (file suffix and kind), and its target is named by a name the source's file calls |
| Linking.RecursiveCallIsSelfEdge | analyzer/parser.py:800-803 | a scope node whose file calls its own name gets a self-loop |
| Linking.RowLoop | analyzer/semantic_analyzer.py:40-41 | one edge from the source to each target, in order |
| Linking.ProductLoop | analyzer/semantic_analyzer.py:39-41 | the nested loop over sources and targets |
| Linking.RendersNamesLoop | analyzer/semantic_analyzer.py:37-41 | the loop over one file's JSX names |
| Linking.RendersLoop | analyzer/semantic_analyzer.py:30-41 | the loop over the file symbols, in insertion order |
| Linking.SameNameCallsLoop | analyzer/semantic_analyzer.py:46-51 | the same-name Calls loop |
| Linking.ScopeEdgesLoop | analyzer/parser.py:800-803 | the loop over one scope's called names |
| Linking.ParserCallsLoop | analyzer/parser.py:651-659 | the parser's Calls loop over all nodes in one scope |
| ParseState.LastWithId | analyzer/parser.py:232-233 | the last node with a given id, or none iff no node has it |
| ParseState.RegisterAt | analyzer/parser.py:232-233 | after registering, an id is present iff it was before or some node has it, and it maps to the last such node |
| ParseState.RegisterConsistent | analyzer/parser.py:232-233 | registering keeps every entry stored under its own id |
| ParseState.Items | analyzer/parser.py:229 | `extend` with nodes appends exactly those nodes, in order |
| ParseState.ImportTarget | analyzer/parser.py:664-666 | an import links to a target iff resolution yields a non-empty path, and then to that path |
| ParseState.UnresolvedImportChangesNothing | analyzer/parser.py:664-666 | an unresolved import leaves the parser state as it was |
| ParseState.AddIfMissingEffect | analyzer/parser.py:669-692 | after the guarded add the id is registered; old entries keep their value; at most that one node is appended; nothing else changes |
| ParseState.ResolvedImportEffect | analyzer/parser.py:667-693 | a resolved import appends one `depends_on` edge between the two module ids; it appends at most two module nodes; both ends are registered; old entries stay |
| ParseState.PluginFor | analyzer/parser.py:244-249 | `_get_plugin_for_extension`; `ParseState.PluginForExactly` states which plugin each suffix gets |
| ParseState.FileOutcome | analyzer/parser.py:225-240 | what the chosen plugin, or the HTML branch, yields for a file; `ParseState.OutcomeByPlugin`, `ParseState.OutcomeKinds` and `ParseState.HtmlOutcome` state it |
| ParseState.Apply | analyzer/parser.py:225-240 | the state after an outcome is added to the nodes, the registry and the cache; `ParseState.ApplyFrame` and `ParseState.ApplyRegistered` state it |
| ParseState.ParseFileStep | analyzer/parser.py:199-242 | `_parse_file`; `ParseState.ParseFileFrame`, `ParseState.SkippedFilesChangeNothing`, `ParseState.ParseFileIdempotent` and `ParseState.CacheWrittenUnlessPython` state it |
| ParseState.FirstClaiming | analyzer/parser.py:244-249 | the plugin found claims the suffix, and none is found iff no plugin claims it |
| ParseState.PluginForExactly | analyzer/parser.py:244-249 | JavaScript for `.js .jsx .ts .tsx`, Java for `.java`, Python for `.py` (ignoring case), none otherwise |
| ParseState.ApplyRegistered | analyzer/parser.py:226-240 | a plugin's nodes are appended and registered, and the digest is cached |
| ParseState.ApplyFrame | analyzer/parser.py:225-240 | a plugin outcome appends to the nodes and only grows the registry; it leaves edges, symbols, index and parsed set alone; it caches iff it registers |
| ParseState.SkippedFilesChangeNothing | analyzer/parser.py:204-215 | an excluded, already parsed or unreadable file changes nothing |
| ParseState.ParseFileIdempotent | analyzer/parser.py:209-211 | parsing a file twice is parsing it once |
| ParseState.CacheHitOnlyMarksParsed | analyzer/parser.py:215-220 | on a cache hit the file is only marked parsed |
| ParseState.ParseFileFrame | analyzer/parser.py:199-242 | a parse marks a readable, non-excluded file parsed; it only appends nodes and grows the registry; edges, symbols and index are unchanged; at most that file's digest is cached |
| ParseState.OutcomeKinds | analyzer/parser.py:226-233 | only the Python plugin's outcome goes unregistered, and it is the list and the symbol table |
| ParseState.CacheWrittenUnlessPython | analyzer/parser.py:228-242 | a fresh parse caches the digest iff the plugin is not Python; a Python file appends two non-node items and does not register or cache |
| ParseState.CacheAfterOutcome | analyzer/parser.py:239-240 | a registered outcome leaves a cache hit; an unregistered one only appends its items |
| ParseState.JavaScriptFileNodes | analyzer/parser.py:226-233 | a JavaScript file appends the plugin's nodes, the module node first, and registers them all |
| ParseState.OutcomeByPlugin | analyzer/parser.py:226-237 | the outcome of each plugin, and no nodes for an unclaimed non-HTML file |
| ParseState.HtmlOutcome | analyzer/parser.py:234-237 | an `.html` file yields its template node |
| ParseState.HtmlFileTemplate | analyzer/parser.py:586-602 | a fresh `.html` file appends one template node and registers it under its `template` id |
| ParseState.ParseAllMarksParsed | analyzer/parser.py:209-223 | after parsing a list, every readable non-excluded file of it is marked parsed, and nothing is unmarked |
| ParseState.SweptFilesGoToTheProjectPlugin | analyzer/parser.py:609-616 | a swept file's suffix selects the project type's own plugin |
| ParseState.SweptExtensionPlugin | analyzer/parser.py:609-616 | every sweep suffix of a project type is claimed by its language plugin |
| ParseState.ClaimedBy | analyzer/parser.py:246-248 | a suffix one plugin claims selects that plugin |
| ParseState.SweepLocation | analyzer/parser.py:619-631 | the files swept under one location are the walked files below it, not below a skipped directory, with a listed suffix |
| ParseState.SweepStep | analyzer/parser.py:628-631 | the sweep of one more walked file appends it exactly when it is swept |
| ParseState.SweepEach | analyzer/parser.py:619-631 | a file is swept iff it is swept under one of the locations |
| ParseState.SweepFiles | analyzer/parser.py:607-631 | the files `_parse_additional_files` parses, in walk order per location; `ParseState.SweepFilesExactly` states which |
| ParseState.SweepFilesExactly | analyzer/parser.py:607-631 | a file is swept iff it was walked, its lower-cased suffix is listed for the type, it is not below a skipped directory, and it lies under one of the seven locations |
| ParseState.NoPluginNoSweep | analyzer/parser.py:609-616 | a project type without a language sweeps nothing |
| ParseState.BuildIndex | analyzer/parser.py:697-720 | `_build_module_index` over the walk; `Resolver.IndexKeySet` and `Resolver.IndexLastWriterWins` state its keys and values |
| ParseState.IndexedFiles | analyzer/parser.py:702-709 | the indexed files are the walked files not skipped by suffix or directory |
| Parser.EntryPath | analyzer/parser.py:186-202 | the project-relative path pathlib gives `project_path / entry`; `Parser.DotSlashEntry`, `Parser.TrailingSlashEntry` and `Parser.CleanEntryPath` state it |
| Parser.EntryExists | analyzer/parser.py:188 | the entry names an existing file below the project root |
| Parser.EntryFiles | analyzer/parser.py:185-189 | the entry paths kept are existing files, and no more than the entries given; `Parser.EntryFilesExactly` states which |
| Parser.EntryFilesExactly | analyzer/parser.py:185-189 | the normalised path of every existing entry is kept, and every kept path is the normalised path of an existing entry |
| Parser.DotSlashEntry | analyzer/parser.py:186-189 | an entry with a leading `./` names the same file as the entry without it, and exists exactly when that one does |
| Parser.TrailingSlashEntry | analyzer/parser.py:186-189 | an entry with a trailing `/` names the same file as the entry without it, and exists exactly when that one does |
| Parser.CleanEntryPath | analyzer/parser.py:186-202 | an entry with no empty or `.` component is its own path |
| Parser.ParseProjectStep | analyzer/parser.py:177-197 | `parse_project`: the index, the entry files, the sweep, then the relationship pass; `Parser.EntryFilesExactly`, `ParseState.SweepFilesExactly` and `Parser.RelationsOnlyAppendEdges` state the parts |
| Parser.RelationsStep | analyzer/parser.py:633-659 | `_analyze_relationships`, including its raise on a non-node entry; `Parser.RelationsOnlyAppendEdges` and `Parser.ForeignEntryAddsNoEdges` state it |
| Parser.ParseAllAppend | analyzer/parser.py:185-192 | parsing two lists in turn is parsing their concatenation |
| Parser.ForeignEntryAddsNoEdges | analyzer/parser.py:638-642 | any non-node item makes the relationship pass raise before it adds an edge |
| Parser.RelationsOnlyAppendEdges | analyzer/parser.py:633-659 | over nodes only, the pass does not raise and only appends edges: first the Renders edges, then the Calls edges |
| Parser.PythonFileMakesAnalysisRaise | analyzer/parser.py:633-642 | once a Python file is freshly parsed, the relationship pass raises |
| Parser.PushCandidates | analyzer/parser.py:732-742 | `push_with_exts` appends the candidates of one base path |
| Parser.FirstExistingLoop | analyzer/parser.py:756-759 | the first existing candidate, or none |
| Parser.RootCandidatesLoop | analyzer/parser.py:750-751 | the candidates under `src`, `app`, `lib`, in order |
| Parser.SuffixMatchLoop | analyzer/parser.py:752-754 | the value of the first index key that matches |
| Parser.UpperJsxLoop | analyzer/parser.py:467-471 | the JSX names that start with an ASCII upper-case letter, in order |
| Parser.LanguageParser.constructor | analyzer/parser.py:51-75 | a new parser has empty state |
| Parser.LanguageParser.RegisterAll | analyzer/parser.py:232-233 | registers each node under its id, last one wins |
| Parser.LanguageParser.ParseHtml | analyzer/parser.py:586-602 | appends and registers the template node |
| Parser.LanguageParser.ParseFile | analyzer/parser.py:199-242 | the state after `_parse_file` is `ParseFileStep` of the old state, whose properties are the `ParseState` lemmas |
| Parser.LanguageParser.ExtractScript | analyzer/parser.py:226-240 | a JavaScript file's outcome applied to the state |
| Parser.LanguageParser.ExtractJava | analyzer/parser.py:226-240 | a Java file's outcome applied to the state |
| Parser.LanguageParser.ExtractPython | analyzer/parser.py:226-240 | a Python file's outcome applied to the state |
| Parser.LanguageParser.ExtractHtml | analyzer/parser.py:234-240 | an HTML file's outcome applied to the state |
| Parser.LanguageParser.ExtractNothing | analyzer/parser.py:226-240 | an unclaimed file only has its digest cached |
| Parser.LanguageParser.ParseFiles | analyzer/parser.py:628-631 | parses the files in order |
| Parser.LanguageParser.AddIfMissingNode | analyzer/parser.py:669-680 | appends and registers a node whose id is not yet registered |
| Parser.LanguageParser.ParseEntries | analyzer/parser.py:185-189 | parses, as entries and in order, the normalised paths of the entry points that exist |
| Parser.LanguageParser.SweepLocationLoop | analyzer/parser.py:619-631 | parses the files swept under one location |
| Parser.LanguageParser.ParseAdditionalFiles | analyzer/parser.py:607-631 | parses the swept files of the project type, not as entries |
| Parser.LanguageParser.IndexFile | analyzer/parser.py:707-718 | writes every key of one file |
| Parser.LanguageParser.IndexUnderRoots | analyzer/parser.py:715-718 | writes the root-stripped keys of one file |
| Parser.LanguageParser.BuildModuleIndex | analyzer/parser.py:697-720 | the index after the walk, whose keys and values `Resolver.IndexKeySet` and `Resolver.IndexLastWriterWins` state |
| Parser.LanguageParser.ResolveImportTarget | analyzer/parser.py:726-762 | returns `Resolver.Resolve` of the index and the existing files |
| Parser.LanguageParser.AddImportEdge | analyzer/parser.py:661-695 | the state after one import, as `ParseState.ResolvedImportEffect` states |
| Parser.LanguageParser.DeclareAll | analyzer/parser.py:420-457 | adds the nodes of the non-empty names and returns the grown declared set |
| Parser.LanguageParser.LinkImports | analyzer/parser.py:459-464 | links each non-empty stripped import path in order |
| Parser.LanguageParser.ProcessJsCaptures | analyzer/parser.py:415-483 | the state after the JavaScript captures, as `ParserCaptures.JsCaptureEffect` states |
| Parser.LanguageParser.ProcessJavaCaptures | analyzer/parser.py:535-584 | the state after the Java captures, as `ParserCaptures.JavaCaptureEffect` states |
| Parser.LanguageParser.AddEndpointsLoop | analyzer/parser.py:564-584 | adds the endpoint nodes not yet registered |
| Parser.LanguageParser.AnalyzeRelationships | analyzer/parser.py:633-659 | the new edges and whether the pass raised, as `Parser.RelationsOnlyAppendEdges` states |
| Parser.LanguageParser.ParseProject | analyzer/parser.py:177-197 | indexes the walk, parses the entries, sweeps, then runs the relationship pass |
| ParserCaptures.JsCaptureStep | analyzer/parser.py:415-483 | `_process_js_captures`; `ParserCaptures.JsCaptureEffect` states it |
| ParserCaptures.DeclNodes | analyzer/parser.py:421-457 | one node per non-empty name, in order |
| ParserCaptures.DeclNodesNames | analyzer/parser.py:421-457 | every declared node has a non-empty captured name, the file and its parser id; every such name has a node |
| ParserCaptures.AddImportsFrame | analyzer/parser.py:459-464 | linking imports only appends module nodes and changes only nodes, edges and registry |
| ParserCaptures.AddImportsEdges | analyzer/parser.py:459-464 | linking imports appends exactly the `depends_on` edges of the resolved imports, in order |
| ParserCaptures.AddImportsRegistry | analyzer/parser.py:669-693 | linking imports keeps old entries, registers both ends of every new edge, and stays consistent |
| ParserCaptures.UpperJsxExactly | analyzer/parser.py:467-471 | the recorded JSX list keeps every name starting with an ASCII upper-case letter as often as it occurs, and no other name |
| ParserCaptures.MergeSymbolsEffect | analyzer/parser.py:473-483 | only this file's symbols change: the JSX list is replaced when non-empty, and the declared names become the union of old and new when there are any |
| ParserCaptures.JsCaptureEffect | analyzer/parser.py:415-483 | the JavaScript captures append and register the declared nodes, then the import edges; they merge the file's symbols; the rest of the state is unchanged |
| ParserCaptures.ExactKindsRefineSubstringKinds | analyzer/parser.py:539-551 | a controller or service by the parser's exact rule is one by the plugin's substring rule too |
| ParserCaptures.ParserClassKind | analyzer/parser.py:543-544 | the parser's class kind by exact annotation names; `ParserCaptures.ExactKindsRefineSubstringKinds` and `ParserCaptures.KindRulesDiffer` relate it to the plugin's |
| ParserCaptures.JavaCaptureStep | analyzer/parser.py:535-584 | `_process_java_captures`; `ParserCaptures.JavaCaptureEffect` states it |
| ParserCaptures.KindRulesDiffer | analyzer/parser.py:543-544 | `RestControllerAdvice` is a controller for the plugin but a plain class for the parser |
| ParserCaptures.AddEndpointsFrame | analyzer/parser.py:565-584 | the endpoint loop only appends nodes and changes only nodes and registry |
| ParserCaptures.AddEndpointsRegistry | analyzer/parser.py:573-584 | afterwards the registry holds exactly the old ids plus the endpoints' ids; old entries keep their value; it stays consistent |
| ParserCaptures.AddEndpointsFresh | analyzer/parser.py:573-584 | the appended nodes are endpoint nodes of listed paths whose ids were not registered, and no two share an id |
| ParserCaptures.JavaCaptureEffect | analyzer/parser.py:535-584 | the Java captures append and register the class nodes of the file's kind; every endpoint becomes registered; edges, symbols, index and cache are unchanged |
| Paths.Name | analyzer/parser.py:201 | a path's name has no `/` and ends the path |
| Paths.NameIsStemAndSuffix | analyzer/parser.py:670 | stem followed by suffix is the name; the suffix is empty or a dot plus at least one non-dot character |
| Paths.Parent | analyzer/parser.py:712-713 | the parent is a shorter path that, followed by `/`, begins the path |
| Paths.Segments | analyzer/parser.py:744-745 | the components kept contain no empty or `.` parts |
| Paths.JoinSplit | analyzer/parser.py:186-202 | joining the parts of a split path with `/` gives the path back |
| Paths.DotSlashSegments | analyzer/parser.py:186-202 | a leading `./` does not change the components pathlib keeps |
| Paths.TrailingSlashSegments | analyzer/parser.py:186-202 | a trailing `/` does not change the components pathlib keeps |
| OrderedDict.PutValid | analyzer/parser.py:711 | a write keeps the key list in step with the map, and stores the value |
| OrderedDict.PutAllFacts | analyzer/parser.py:711-718 | after writing `v` under a list of keys, those keys map to `v` and the others are unchanged |
| OrderedDict.WriteAllLastWriterWins | analyzer/parser.py:706-718 | after a batch of writes each key holds the value of its last writer |
| PythonPlugin.ParseResult | analyzer/plugins/languages/python_plugin.py:25-63 | the nodes and symbols `parse` returns; `PythonPlugin.ParseShape` states them |
| PythonPlugin.Qualify | analyzer/plugins/languages/python_plugin.py:72-75 | one qualified name per imported alias |
| PythonPlugin.QualifyExactly | analyzer/plugins/languages/python_plugin.py:72-75 | the qualified names are exactly `module.alias` for the aliases |
| PythonPlugin.ProcessAst | analyzer/plugins/languages/python_plugin.py:78-102 | the walk loop yields the definition nodes |
| PythonPlugin.StmtImportsLoop | analyzer/plugins/languages/python_plugin.py:69-75 | the imports of one statement |
| PythonPlugin.ExtractImports | analyzer/plugins/languages/python_plugin.py:65-76 | the imports of the walk |
| PythonPlugin.Parse | analyzer/plugins/languages/python_plugin.py:25-63 | the nodes and symbols of the file |
| PythonPlugin.AstNodesShape | analyzer/plugins/languages/python_plugin.py:82-100 | each definition node has the file, the entry flag, `file_name_hash8` id, its kind and its level |
| PythonPlugin.AstNodesNames | analyzer/plugins/languages/python_plugin.py:82-100 | the nodes are named by the class and function definitions of the walk, in order |
| PythonPlugin.DefinitionKinds | analyzer/plugins/languages/python_plugin.py:83-93 | a class definition makes a class; a function makes a view iff its lower-cased name contains `view`, and a function otherwise |
| PythonPlugin.StmtImportsExactly | analyzer/plugins/languages/python_plugin.py:69-75 | a statement imports exactly its aliases, or `module.alias` for a `from` import with a module |
| PythonPlugin.ImportsExactly | analyzer/plugins/languages/python_plugin.py:65-76 | a name is imported iff some statement of the walk imports it |
| PythonPlugin.ParseShape | analyzer/plugins/languages/python_plugin.py:25-63 | the module node comes first; a syntax error leaves only it and no symbols; otherwise the symbols list the definitions' non-empty names |
| PythonPlugin.ViewIsComponent | analyzer/plugins/languages/python_plugin.py:139-140 | a view not passing the container test is component-level |
| Resolver.ReplaceBackslashPairs | analyzer/parser.py:724 | replacing pairs never lengthens the text |
| Resolver.ReplaceBackslashPairsKeeps | analyzer/parser.py:724 | text without backslashes is unchanged |
| Resolver.NormalizeModuleKey | analyzer/parser.py:722-724 | a normalised key has no backslash and no trailing `/` |
| Resolver.NormalizeKeepsCleanKeys | analyzer/parser.py:722-724 | a key already in that form is unchanged |
| Resolver.NormalizeIdempotent | analyzer/parser.py:722-724 | normalising twice is normalising once |
| Resolver.IndexWrites | analyzer/parser.py:706-718 | one batch of key writes per walked file, of that file |
| Resolver.IndexKeySet | analyzer/parser.py:697-720 | the index has exactly the keys some walked file writes |
| Resolver.IndexLastWriterWins | analyzer/parser.py:697-720 | each key maps to the last walked file that writes it |
| Resolver.WithEach | analyzer/parser.py:736-737 | one suffixed candidate per extension, in order |
| Resolver.ChildEach | analyzer/parser.py:738-742 | one index-file candidate per name, in order |
| Resolver.ExtensionlessCandidateOrder | analyzer/parser.py:732-742 | an extensionless path gives 13 candidates: the 8 suffixes, then the 5 index files, in the listed order |
| Resolver.SuffixedCandidateAlone | analyzer/parser.py:733-735 | a path with a suffix is its one candidate |
| Resolver.FirstExisting | analyzer/parser.py:756-759 | none iff no candidate exists; otherwise the first existing candidate, which is an existing file |
| Resolver.SuffixMatch | analyzer/parser.py:752-754 | none iff no key matches; otherwise the value of the first matching key in insertion order |
| Resolver.FirstMatchingKey | analyzer/parser.py:752-754 | the first key of a list that is in the map and matches |
| Resolver.RelativeIgnoresIndex | analyzer/parser.py:744-745 | a relative specifier resolves the same under any index |
| Resolver.RelativeFirstExistingWins | analyzer/parser.py:744-759 | a relative specifier resolves iff some candidate exists, and to the first one |
| Resolver.FirstExistingAt | analyzer/parser.py:756-758 | the first existing candidate is the result |
| Resolver.ExactKeyIgnoresFiles | analyzer/parser.py:747-749 | a bare specifier that is a key resolves to its entry, whatever files exist |
| Resolver.BareSuffixKeysBeforeFiles | analyzer/parser.py:746-759 | otherwise a matching key wins over every file candidate |
| Resolver.Resolve | analyzer/parser.py:726-762 | `_resolve_import_target`; `Resolver.RelativeFirstExistingWins`, `Resolver.ExactKeyIgnoresFiles`, `Resolver.BareSuffixKeysBeforeFiles` and `Resolver.ResolvedIsKnown` state it |
| Resolver.ResolvedIsKnown | analyzer/parser.py:726-762 | a result is an indexed path or an existing file; nothing resolves with an empty index and no files |
| Semantic.AnalysisEdges | analyzer/semantic_analyzer.py:19-51 | the edges `analyze` returns; `Semantic.AnalysisExactly` and `Semantic.AnalysisCount` state them |
| Semantic.RendersKinds | analyzer/semantic_analyzer.py:41 | every Renders-pass edge has kind renders |
| Semantic.CallsKinds | analyzer/semantic_analyzer.py:51 | every Calls-pass edge has kind calls |
| Semantic.RendersBeforeCalls | analyzer/semantic_analyzer.py:19-26 | `analyze` returns all Renders edges before all Calls edges |
| Semantic.AnalysisExactly | analyzer/semantic_analyzer.py:19-51 | an edge is produced iff it is a Renders pair of a listed file or a same-name Calls pair |
| Semantic.AnalysisCount | analyzer/semantic_analyzer.py:28-51 | the number of edges is the Renders product sum plus the Calls count |
| Semantic.NoJsxOnlyCalls | analyzer/semantic_analyzer.py:30-33 | with no JSX names anywhere, only Calls edges are produced |
| Semantic.SemanticAnalyzer.constructor | analyzer/semantic_analyzer.py:14-17 | keeps the nodes; a missing symbol table becomes empty; no edges yet |
| Semantic.SemanticAnalyzer.AnalyzeRenders | analyzer/semantic_analyzer.py:28-41 | appends the Renders edges |
| Semantic.SemanticAnalyzer.AnalyzeCalls | analyzer/semantic_analyzer.py:43-51 | appends the Calls edges |
| Semantic.SemanticAnalyzer.Analyze | analyzer/semantic_analyzer.py:19-26 | appends the Renders then the Calls edges and returns the edge list |
| Text.Lower | analyzer/parser.py:201 | same length; each character is lower-cased |
| Text.ContainsAt | analyzer/parser.py:205 | `sub in s` iff `sub` occurs at some position |
| Text.ReplaceChar | analyzer/parser.py:835 | same length; each `a` becomes `b` and every other character is kept |
| Text.LStrip | analyzer/parser.py:462 | removes the longest prefix of stripped characters |
| Text.RStrip | analyzer/parser.py:462 | removes the longest suffix of stripped characters |
| Text.StripLiteral | analyzer/parser.py:462 | the stripped path is no longer than the raw text, and starts and ends with no quote; the whitespace stripped first is every character for which `str.isspace()` holds, including the non-ASCII ones |
| Text.StripFramed | analyzer/parser.py:462 | a text framed by one stripped character on each side strips to itself |
| Text.StripLiteralUnicodeSpace | analyzer/parser.py:462 | a quoted literal between a no-break space and an ideographic space strips to its bare contents |
| Text.NonEmpty | analyzer/parser.py:422-424 | a name is kept iff it occurs and is non-empty; never more names than given |
| Text.NonEmptyMultiset | analyzer/parser.py:422-424 | every non-empty name is kept as often as it occurs, and no empty name is kept |
| Text.NonEmptyIndices | analyzer/parser.py:422-424 | strictly increasing positions, which are exactly those of the non-empty names |
| Text.NonEmptyAtIndices | analyzer/parser.py:422-424 | the k-th kept name is the name at the k-th non-empty position, so the kept names keep their order |

## Left out

- File-system access, reading and decoding files, and `os.walk`. The model takes as inputs:
  - the set of existing project-relative paths;
  - the file texts;
  - one walk order, used both for the index and for the sweep.
- Directories passed to `cand.exists()` count as existing only if listed among the existing paths.
- Path normalisation beyond dropping empty and `.` components: `..` is kept lexically, as `pathlib` does.
- Parser.EntryPath: an absolute entry value is read relative to the project root. The source joins it as an absolute path, and `relative_to` then raises unless that path lies under the project.
- Tree-sitter and `ast` parsing: the captures (JavaScript, Java) and the walks (Python) are inputs. So are the names each file calls (for `_analyze_js_calls` / `_analyze_py_calls`).
- md5 is a digest-function parameter; nothing is assumed about collisions.
- Iteration order of Python sets is taken from an input sequence (called names), or the result is a set (declared names).
- The dead parse paths are not modelled: `_parse_python_file`, `_build_python_symbols`, `_parse_javascript_file`, `_parse_java_file` and the grammar loaders. `_process_js_captures` and `_process_java_captures` are modelled on captures.
- `SemanticAnalyzer._analyze_data_flow` and `_resolve_dependency_injection` are omitted: they do nothing.
- A `None` entry in the file symbols is modelled as an entry without JSX names.
- `CodebaseAnalyzer.analyze` (the pipeline that calls the scanner, entry points and parser), `_derive_project_name`, `to_dict` and logging are left out. The scanner and entry-point plugins are not part of this model.
- `analyzer/models.py` is not part of this model. Node kinds are used directly, rather than their string values, in the type-based overrides.
- Exceptions other than the Python tuple crash in `_parse_file` and the crash in `_analyze_relationships` are left out: a file that cannot be read is simply absent from the texts.
- Text.Lower: lower-cases ASCII letters only, not all of Unicode.
- Text.IsUpper: accepts only the ASCII letters A-Z, where `str.isupper()` accepts every upper-case letter (the Unicode case tables are not modelled).
- JsPlugin.FunctionKindRule: inherits the ASCII-only `Text.IsUpper`, so a function named `Élan` in a `.tsx` file is a component in the source and a function in the model.
- ParserCaptures.UpperJsxExactly: inherits the ASCII-only `Text.IsUpper`, so a JSX name such as `Élan` is kept by the source and dropped by the model; `Parser.UpperJsxLoop` likewise.
- Env.jsCalls / Env.pyCalls: each file's called names are a sequence. The source collects them in a set, so a name occurs once. The model does not rule out repeats, and a repeated name gives repeated Calls edges that the source cannot produce (`Linking.ParserCallsExactly` follows what the sequence holds). The JSX names behind `Linking.RendersEdgeCount` are a list in the source too, so repeats there are real.
