/**
 * Import resolution: the module index keys derived for each source file,
 * the normalisation of keys and specifiers, and the order in which a
 * specifier's candidate files are tried.  The existence of a file is an
 * input: the set of project-relative paths (as `str(path)` renders them)
 * that exist.
 */
module Resolver {
  import opened Wrappers
  import opened Text
  import opened Paths
  import opened OrderedDict

  /** `s.replace('\\\\', '/')` in Python source: each pair of backslashes, left to right, becomes `/`. */
  function ReplaceBackslashPairs(s: string): (r: string)
    ensures |r| <= |s|
    decreases |s|
  {
    if s == [] then []
    else if |s| >= 2 && s[0] == '\\' && s[1] == '\\' then "/" + ReplaceBackslashPairs(s[2..])
    else [s[0]] + ReplaceBackslashPairs(s[1..])
  }

  lemma ReplaceBackslashPairsKeeps(s: string)
    requires forall i :: 0 <= i < |s| ==> s[i] != '\\'
    ensures ReplaceBackslashPairs(s) == s
    decreases |s|
  {
  }

  /** `_normalize_module_key`: backslashes become `/`, then trailing `/` are removed. */
  function NormalizeModuleKey(s: string): (r: string)
    ensures forall i :: 0 <= i < |r| ==> r[i] != '\\'
    ensures r == [] || r[|r| - 1] != '/'
  {
    RStrip(ReplaceChar(ReplaceBackslashPairs(s), '\\', '/'), {'/'})
  }

  /** A key with no backslash and no trailing `/` is left as it is. */
  lemma NormalizeKeepsCleanKeys(s: string)
    requires forall i :: 0 <= i < |s| ==> s[i] != '\\'
    requires s == [] || s[|s| - 1] != '/'
    ensures NormalizeModuleKey(s) == s
  {
    ReplaceBackslashPairsKeeps(s);
    assert ReplaceChar(s, '\\', '/') == s;
  }

  /** Normalising twice is normalising once. */
  lemma NormalizeIdempotent(s: string)
    ensures NormalizeModuleKey(NormalizeModuleKey(s)) == NormalizeModuleKey(s)
  {
    NormalizeKeepsCleanKeys(NormalizeModuleKey(s));
  }

  // ---------------------------------------------------------------------
  // The module index

  /** The suffixes `_build_module_index` indexes. */
  const IndexExts: seq<string> := [".js", ".jsx", ".ts", ".tsx", ".mjs", ".cjs", ".py", ".java"]

  /** The source roots whose prefix is also stripped to form a key. */
  const SrcRoots: seq<string> := ["src", "app", "lib", "components", "pages", "server", "api"]

  predicate Indexed(rel: string)
  {
    Lower(Suffix(rel)) in IndexExts
  }

  /** The key for `rel` under one source root, when `rel` lies below it. */
  function RootKey(rel: string, root: string): seq<string>
  {
    if StartsWith(rel, root + "/") then [NormalizeModuleKey(rel[|root| + 1..])] else []
  }

  /** The keys written for `rel` under the roots `roots`, in their order. */
  function RootKeys(rel: string, roots: seq<string>): seq<string>
    decreases |roots|
  {
    if roots == [] then [] else RootKeys(rel, roots[..|roots| - 1]) + RootKey(rel, roots[|roots| - 1])
  }

  /** The folder key of an `index` file below the project root. */
  function FolderKey(rel: string): seq<string>
  {
    if Stem(rel) == "index" && !IsTopLevel(rel) then [NormalizeModuleKey(Parent(rel))] else []
  }

  /** Every key `_build_module_index` writes for `rel`, in the order it writes them. */
  function IndexKeys(rel: string): seq<string>
  {
    [NormalizeModuleKey(rel)] + FolderKey(rel) + RootKeys(rel, SrcRoots)
  }

  /** The keys indexing writes for one file of the walk (none for a file it skips). */
  function KeysFor(rel: string): seq<string>
  {
    if Indexed(rel) then IndexKeys(rel) else []
  }

  /** The writes `_build_module_index` performs for a walk, one entry per file. */
  function IndexWrites(walk: seq<string>): (ws: seq<(seq<string>, string)>)
    ensures |ws| == |walk|
    ensures forall i :: 0 <= i < |walk| ==> ws[i] == (KeysFor(walk[i]), walk[i])
    decreases |walk|
  {
    if walk == [] then [] else IndexWrites(walk[..|walk| - 1]) + [(KeysFor(walk[|walk| - 1]), walk[|walk| - 1])]
  }

  /**
   * After indexing a walk from an empty index, exactly the keys of the
   * indexed files are present, and every key is listed once.
   */
  lemma IndexKeySet(walk: seq<string>)
    ensures var d := WriteAll(Empty(), IndexWrites(walk));
      && Valid(d)
      && (forall k :: k in d.m <==> exists i :: 0 <= i < |walk| && k in KeysFor(walk[i]))
  {
    var ws := IndexWrites(walk);
    WriteAllLastWriterWins(ws);
    forall k, i | 0 <= i < |walk| && k in KeysFor(walk[i])
      ensures exists j :: 0 <= j < |ws| && k in ws[j].0
    {
      assert k in ws[i].0;
    }
  }

  /**
   * A key of the index maps to the LAST file of the walk whose index keys
   * include it (the keys of file `walk[i]` being `IndexWrites(walk)[i].0`,
   * which is `KeysFor(walk[i])`).
   */
  lemma IndexLastWriterWins(walk: seq<string>)
    ensures var d := WriteAll(Empty(), IndexWrites(walk));
      forall k :: k in d.m ==>
        exists i :: 0 <= i < |walk| && k in IndexWrites(walk)[i].0 && d.m[k] == walk[i]
          && forall j :: i < j < |walk| ==> k !in IndexWrites(walk)[j].0
  {
    var ws := IndexWrites(walk);
    WriteAllLastWriterWins(ws);
    var d := WriteAll(Empty(), ws);
    forall k | k in d.m
      ensures exists i ::
        0 <= i < |walk| && k in ws[i].0 && d.m[k] == walk[i] && forall j :: i < j < |walk| ==> k !in ws[j].0
    {
      var i :| LastWriter(ws, i, k) && d.m[k] == ws[i].1;
      assert ws[i].1 == walk[i];
    }
  }

  // ---------------------------------------------------------------------
  // Candidates and resolution

  /** The suffixes an extensionless candidate is tried with, in order. */
  const ResolveExts: seq<string> := [".ts", ".tsx", ".js", ".jsx", ".mjs", ".cjs", ".py", ".java"]

  /** The index files tried inside a candidate directory, in order. */
  const IndexFiles: seq<string> := ["index.ts", "index.tsx", "index.js", "index.jsx", "__init__.py"]

  /** `p.with_suffix(ext)` for each of `exts`, in order. */
  function WithEach(c: Cand, exts: seq<string>): (r: seq<Cand>)
    ensures |r| == |exts| && forall i :: 0 <= i < |exts| ==> r[i] == WithSuffix(c, exts[i])
    decreases |exts|
  {
    if exts == [] then [] else WithEach(c, exts[..|exts| - 1]) + [WithSuffix(c, exts[|exts| - 1])]
  }

  /** `p / name` for each of `names`, in order. */
  function ChildEach(c: Cand, names: seq<string>): (r: seq<Cand>)
    ensures |r| == |names| && forall i :: 0 <= i < |names| ==> r[i] == Child(c, names[i])
    decreases |names|
  {
    if names == [] then [] else ChildEach(c, names[..|names| - 1]) + [Child(c, names[|names| - 1])]
  }

  /** `push_with_exts(p)`: the candidates one base path contributes. */
  function PushWithExts(c: Cand): seq<Cand>
  {
    if HasSuffix(c) then [c] else WithEach(c, ResolveExts) + ChildEach(c, IndexFiles)
  }

  /** An extensionless path is tried with the eight suffixes, then the five index files, in that order. */
  lemma ExtensionlessCandidateOrder(segs: seq<string>)
    requires segs != [] && SuffixOfName(segs[|segs| - 1]) == ""
    ensures var cs := PushWithExts(InProject(segs));
      && |cs| == 13
      && (forall i :: 0 <= i < 8 ==>
            cs[i] == InProject(segs[..|segs| - 1] + [segs[|segs| - 1] + ResolveExts[i]]))
      && (forall i :: 8 <= i < 13 ==> cs[i] == InProject(segs + [IndexFiles[i - 8]]))
  {
  }

  /** A path that has a suffix is its only candidate. */
  lemma SuffixedCandidateAlone(segs: seq<string>)
    requires segs != [] && SuffixOfName(segs[|segs| - 1]) != ""
    ensures PushWithExts(InProject(segs)) == [InProject(segs)]
  {
  }

  predicate IsRelativeSpecifier(spec: string)
  {
    StartsWith(spec, "./") || StartsWith(spec, "../")
  }

  /** The components of the directory holding `from`. */
  function ParentSegs(from: string): seq<string>
  {
    var s := Segments(from);
    if s == [] then [] else s[..|s| - 1]
  }

  /** `project_path / root / specifier`; an absolute specifier leaves the project. */
  function RootJoin(root: string, spec: string): Cand
  {
    if StartsWith(spec, "/") then Elsewhere else InProject([root] + Segments(spec))
  }

  /** The roots a bare specifier is tried under, in order. */
  const ImportRoots: seq<string> := ["src", "app", "lib"]

  /** The candidates of a bare specifier under each of `roots`, in order. */
  function RootCandidates(roots: seq<string>, spec: string): seq<Cand>
    decreases |roots|
  {
    if roots == [] then []
    else RootCandidates(roots[..|roots| - 1], spec) + PushWithExts(RootJoin(roots[|roots| - 1], spec))
  }

  /** The candidate list `_resolve_import_target` builds. */
  function Candidates(from: string, spec: string): seq<Cand>
  {
    if IsRelativeSpecifier(spec) then PushWithExts(InProject(ParentSegs(from) + Segments(spec)))
    else RootCandidates(ImportRoots, spec)
  }

  /** `cand.exists()`; nothing outside the project tree is taken to exist. */
  predicate FileExists(existing: set<string>, c: Cand)
  {
    c.InProject? && Render(c.segs) in existing
  }

  /** The project-relative path of the first existing candidate. */
  function FirstExisting(existing: set<string>, cands: seq<Cand>): (r: Option<string>)
    ensures r.None? <==> forall i :: 0 <= i < |cands| ==> !FileExists(existing, cands[i])
    ensures r.Some? ==>
      exists i :: 0 <= i < |cands| && FileExists(existing, cands[i])
        && r.value == Render(cands[i].segs) && forall j :: 0 <= j < i ==> !FileExists(existing, cands[j])
    ensures r.Some? ==> r.value in existing
    decreases |cands|
  {
    if cands == [] then None
    else if FileExists(existing, cands[0]) then Some(Render(cands[0].segs))
    else
      var r := FirstExisting(existing, cands[1..]);
      assert forall i :: 1 <= i < |cands| ==> cands[i] == cands[1..][i - 1];
      assert r.Some? ==>
        exists i :: 1 <= i < |cands| && FileExists(existing, cands[i])
          && r.value == Render(cands[i].segs) && forall j :: 0 <= j < i ==> !FileExists(existing, cands[j]) by {
        if r.Some? {
          var i :| 0 <= i < |cands[1..]| && FileExists(existing, cands[1..][i])
            && r.value == Render(cands[1..][i].segs) && forall j :: 0 <= j < i ==> !FileExists(existing, cands[1..][j]);
          assert cands[i + 1] == cands[1..][i];
          forall j | 0 < j < i + 1 ensures !FileExists(existing, cands[j]) {
            assert cands[j] == cands[1..][j - 1];
          }
        }
      }
      r
  }

  /** `k.endswith('/' + norm) or k == norm`. */
  predicate KeyMatches(k: string, norm: string)
  {
    EndsWith(k, "/" + norm) || k == norm
  }

  /** The value of the first index key, in insertion order, that matches `norm`. */
  function SuffixMatch(d: ODict<string>, norm: string): (r: Option<string>)
    ensures r.None? <==> forall i :: 0 <= i < |d.keys| ==> !(d.keys[i] in d.m && KeyMatches(d.keys[i], norm))
    ensures r.Some? ==>
      exists i :: 0 <= i < |d.keys| && d.keys[i] in d.m && KeyMatches(d.keys[i], norm)
        && r.value == d.m[d.keys[i]]
        && forall j :: 0 <= j < i ==> !(d.keys[j] in d.m && KeyMatches(d.keys[j], norm))
    ensures r.Some? ==> r.value in d.m.Values
  {
    FirstMatchingKey(d.keys, d.m, norm)
  }

  function FirstMatchingKey(keys: seq<string>, m: map<string, string>, norm: string): (r: Option<string>)
    ensures r.None? <==> forall i :: 0 <= i < |keys| ==> !(keys[i] in m && KeyMatches(keys[i], norm))
    ensures r.Some? ==>
      exists i :: 0 <= i < |keys| && keys[i] in m && KeyMatches(keys[i], norm)
        && r.value == m[keys[i]]
        && forall j :: 0 <= j < i ==> !(keys[j] in m && KeyMatches(keys[j], norm))
    ensures r.Some? ==> r.value in m.Values
    decreases |keys|
  {
    if keys == [] then None
    else if keys[0] in m && KeyMatches(keys[0], norm) then Some(m[keys[0]])
    else
      var r := FirstMatchingKey(keys[1..], m, norm);
      assert r.Some? ==>
        exists i :: 1 <= i < |keys| && keys[i] in m && KeyMatches(keys[i], norm)
          && r.value == m[keys[i]] && forall j :: 0 <= j < i ==> !(keys[j] in m && KeyMatches(keys[j], norm)) by {
        if r.Some? {
          var i :| 0 <= i < |keys[1..]| && keys[1..][i] in m && KeyMatches(keys[1..][i], norm)
            && r.value == m[keys[1..][i]] && forall j :: 0 <= j < i ==> !(keys[1..][j] in m && KeyMatches(keys[1..][j], norm));
          assert keys[i + 1] == keys[1..][i];
          forall j | 0 < j < i + 1 ensures !(keys[j] in m && KeyMatches(keys[j], norm)) {
            assert keys[j] == keys[1..][j - 1];
          }
        }
      }
      assert forall i :: 1 <= i < |keys| ==> keys[i] == keys[1..][i - 1];
      r
  }

  /**
   * `_resolve_import_target(from_file, specifier)`: a relative specifier is
   * the first existing candidate next to `from`; a bare one is, in this
   * order, the exact index key, the first index key ending with it, or the
   * first existing candidate under src, app or lib.
   */
  function Resolve(d: ODict<string>, existing: set<string>, from: string, spec: string): Option<string>
  {
    if IsRelativeSpecifier(spec) then FirstExisting(existing, Candidates(from, spec))
    else
      var norm := NormalizeModuleKey(spec);
      if norm in d.m then Some(d.m[norm])
      else
        match SuffixMatch(d, norm)
        case Some(rel) => Some(rel)
        case None => FirstExisting(existing, Candidates(from, spec))
  }

  /** A relative specifier never consults the index: any two indexes give the same answer. */
  lemma RelativeIgnoresIndex(d1: ODict<string>, d2: ODict<string>, existing: set<string>, from: string, spec: string)
    requires IsRelativeSpecifier(spec)
    ensures Resolve(d1, existing, from, spec) == Resolve(d2, existing, from, spec)
  {
  }

  /**
   * A relative specifier resolves to the first existing candidate, and to
   * nothing exactly when no candidate exists.
   */
  lemma RelativeFirstExistingWins(d: ODict<string>, existing: set<string>, from: string, spec: string)
    requires IsRelativeSpecifier(spec)
    ensures var cs := Candidates(from, spec);
      && (Resolve(d, existing, from, spec).None? <==> forall i :: 0 <= i < |cs| ==> !FileExists(existing, cs[i]))
      && (forall i :: 0 <= i < |cs| && FileExists(existing, cs[i]) && (forall j :: 0 <= j < i ==> !FileExists(existing, cs[j]))
            ==> Resolve(d, existing, from, spec) == Some(Render(cs[i].segs)))
  {
    var cs := Candidates(from, spec);
    assert Resolve(d, existing, from, spec) == FirstExisting(existing, cs);
    forall i | 0 <= i < |cs| && FileExists(existing, cs[i]) && (forall j :: 0 <= j < i ==> !FileExists(existing, cs[j]))
      ensures FirstExisting(existing, cs) == Some(Render(cs[i].segs))
    {
      FirstExistingAt(existing, cs, i);
    }
  }

  /** The first existing candidate is the one `FirstExisting` returns. */
  lemma FirstExistingAt(existing: set<string>, cs: seq<Cand>, i: nat)
    requires i < |cs| && FileExists(existing, cs[i]) && forall j :: 0 <= j < i ==> !FileExists(existing, cs[j])
    ensures FirstExisting(existing, cs) == Some(Render(cs[i].segs))
  {
    var r := FirstExisting(existing, cs);
    var k :| 0 <= k < |cs| && FileExists(existing, cs[k]) && r.value == Render(cs[k].segs)
      && forall j :: 0 <= j < k ==> !FileExists(existing, cs[j]);
    assert k == i;
  }

  /** A bare specifier whose normalised form is a key resolves to that entry, whatever files exist. */
  lemma ExactKeyIgnoresFiles(d: ODict<string>, e1: set<string>, e2: set<string>, from: string, spec: string)
    requires !IsRelativeSpecifier(spec) && NormalizeModuleKey(spec) in d.m
    ensures Resolve(d, e1, from, spec) == Some(d.m[NormalizeModuleKey(spec)])
    ensures Resolve(d, e1, from, spec) == Resolve(d, e2, from, spec)
  {
  }

  /**
   * A bare specifier: an index key ending in `/` + its normalised form is
   * preferred to every root candidate; the root candidates are tried only
   * when no key matches.
   */
  lemma BareSuffixKeysBeforeFiles(d: ODict<string>, existing: set<string>, from: string, spec: string)
    requires !IsRelativeSpecifier(spec) && NormalizeModuleKey(spec) !in d.m
    ensures var norm := NormalizeModuleKey(spec);
      Resolve(d, existing, from, spec) ==
        if exists i :: 0 <= i < |d.keys| && d.keys[i] in d.m && KeyMatches(d.keys[i], norm)
        then SuffixMatch(d, norm)
        else FirstExisting(existing, Candidates(from, spec))
  {
  }

  /** Whatever it resolves to is a path of the index or a file that exists; nothing resolves when neither offers one. */
  lemma ResolvedIsKnown(d: ODict<string>, existing: set<string>, from: string, spec: string)
    ensures Resolve(d, existing, from, spec).Some? ==>
      Resolve(d, existing, from, spec).value in d.m.Values || Resolve(d, existing, from, spec).value in existing
    ensures d.m == map[] && existing == {} ==> Resolve(d, existing, from, spec).None?
  {
  }
}
