/**
 * The parts of `pathlib` the analyzer uses, on POSIX paths relative to the
 * project root (the form `str(path.relative_to(project_path))` produces).
 */
module Paths {
  import opened Text

  /** `PurePath(p).name`: the text after the last `/`. */
  function Name(p: string): (r: string)
    ensures forall i :: 0 <= i < |r| ==> r[i] != '/'
    ensures EndsWith(p, r)
  {
    p[LastIndexOf(p, '/') + 1..]
  }

  /** `PurePath(p).suffix` computed on a final component. */
  function SuffixOfName(name: string): (r: string)
  {
    var i := LastIndexOf(name, '.');
    if 0 < i < |name| - 1 then name[i..] else ""
  }

  /** `PurePath(p).stem` computed on a final component. */
  function StemOfName(name: string): (r: string)
  {
    var i := LastIndexOf(name, '.');
    if 0 < i < |name| - 1 then name[..i] else name
  }

  /** `PurePath(p).suffix`. */
  function Suffix(p: string): string
  {
    SuffixOfName(Name(p))
  }

  /** `PurePath(p).stem`. */
  function Stem(p: string): string
  {
    StemOfName(Name(p))
  }

  /** The suffix is empty or a dot followed by at least one character, and stem + suffix is the name. */
  lemma NameIsStemAndSuffix(name: string)
    ensures StemOfName(name) + SuffixOfName(name) == name
    ensures SuffixOfName(name) == "" || (|SuffixOfName(name)| >= 2 && SuffixOfName(name)[0] == '.')
    ensures forall i :: 1 <= i < |SuffixOfName(name)| ==> SuffixOfName(name)[i] != '.'
  {
  }

  /** The path has no `/`: its parent is the project root itself. */
  predicate IsTopLevel(p: string)
  {
    LastIndexOf(p, '/') < 0
  }

  /** `str(PurePath(p).parent)` for a path that is not top-level. */
  function Parent(p: string): (r: string)
    requires !IsTopLevel(p)
    ensures |r| < |p| && StartsWith(p, r + "/")
  {
    var i := LastIndexOf(p, '/');
    assert p[..i + 1] == p[..i] + "/";
    p[..i]
  }

  /** `s.split('/')`. */
  function Split(s: string): (r: seq<string>)
    ensures |r| >= 1
    ensures forall i, j :: 0 <= i < |r| && 0 <= j < |r[i]| ==> r[i][j] != '/'
    decreases |s|
  {
    var k := IndexOf(s, '/');
    if k < 0 then [s] else [s[..k]] + Split(s[k + 1..])
  }

  /** The components that pathlib keeps when it parses a path: empty and `.` parts are dropped. */
  function DropDots(parts: seq<string>): (r: seq<string>)
    ensures forall i :: 0 <= i < |r| ==> r[i] != "" && r[i] != "." && r[i] in parts
    decreases |parts|
  {
    if parts == [] then []
    else
      var prev := DropDots(parts[..|parts| - 1]);
      var last := parts[|parts| - 1];
      if last == "" || last == "." then prev else prev + [last]
  }

  /** The components of a POSIX path string as pathlib parses them. */
  function Segments(s: string): (r: seq<string>)
    ensures forall i :: 0 <= i < |r| ==> r[i] != "" && r[i] != "."
  {
    DropDots(Split(s))
  }

  /** `'/'.join(parts)`. */
  function JoinSlash(parts: seq<string>): string
    decreases |parts|
  {
    if parts == [] then ""
    else if |parts| == 1 then parts[0]
    else parts[0] + "/" + JoinSlash(parts[1..])
  }

  /** Joining two or more parts puts a `/` after the first. */
  lemma JoinSlashCons(x: string, rest: seq<string>)
    requires rest != []
    ensures JoinSlash([x] + rest) == x + "/" + JoinSlash(rest)
  {
    assert ([x] + rest)[1..] == rest;
  }

  /** A text is its part before a `/`, the `/`, and its part after. */
  lemma AroundSlash(s: string, k: int)
    requires 0 <= k < |s| && s[k] == '/'
    ensures s == s[..k] + "/" + s[k + 1..]
  {
  }

  /** Joining the parts of a split with `/` gives the text back. */
  lemma {:induction false} JoinSplit(s: string)
    ensures JoinSlash(Split(s)) == s
    decreases |s|
  {
    var k := IndexOf(s, '/');
    if k >= 0 {
      var rest := s[k + 1..];
      JoinSplit(rest);
      JoinSlashCons(s[..k], Split(rest));
      AroundSlash(s, k);
    }
  }

  /** `DropDots` works part by part. */
  lemma {:induction false} DropDotsAppend(a: seq<string>, b: seq<string>)
    ensures DropDots(a + b) == DropDots(a) + DropDots(b)
    decreases |b|
  {
    if b == [] {
      assert a + b == a;
    } else {
      DropDotsAppend(a, b[..|b| - 1]);
      assert (a + b)[..|a + b| - 1] == a + b[..|b| - 1];
    }
  }

  /** Parts with no empty or `.` part are kept as they are. */
  lemma {:induction false} DropDotsClean(parts: seq<string>)
    requires forall i :: 0 <= i < |parts| ==> parts[i] != "" && parts[i] != "."
    ensures DropDots(parts) == parts
    decreases |parts|
  {
    if parts != [] {
      DropDotsClean(parts[..|parts| - 1]);
    }
  }

  /** A leading `./` adds only a `.` part, which pathlib drops. */
  lemma DotSlashSegments(s: string)
    ensures Segments("./" + s) == Segments(s)
  {
    var t := "./" + s;
    assert t[1..] == "/" + s && t[2..] == s;
    assert IndexOf(t[1..], '/') == 0;
    assert IndexOf(t, '/') == 1;
    assert t[..1] == ".";
    assert Split(t) == ["."] + Split(s);
    DropDotsAppend(["."], Split(s));
    assert DropDots(["."]) == [];
  }

  /** The first `/` of `s + "/"` is the first of `s`, or the appended one. */
  lemma IndexOfSlashAppended(s: string)
    ensures IndexOf(s + "/", '/') == if IndexOf(s, '/') >= 0 then IndexOf(s, '/') else |s|
  {
    var t := s + "/";
    var k, r := IndexOf(s, '/'), IndexOf(t, '/');
    assert forall i :: 0 <= i < |s| ==> t[i] == s[i];
    if k >= 0 {
      assert t[k] == '/';
    } else {
      assert t[|s|] == '/';
    }
  }

  /** Split's first part runs up to the first `/`. */
  lemma SplitUnfold(s: string, k: int)
    requires k == IndexOf(s, '/')
    ensures k < 0 ==> Split(s) == [s]
    ensures k >= 0 ==> Split(s) == [s[..k]] + Split(s[k + 1..])
  {
    if k >= 0 {
      var rest := s[k + 1..];
      var r := [s[..k]] + Split(rest);
      assert Split(s) == r;
    }
  }

  /** Putting one more part in front of a snoc. */
  lemma ConsSnoc(x: string, xs: seq<string>, y: string)
    ensures [x] + (xs + [y]) == ([x] + xs) + [y]
  {
  }

  /** A trailing `/` adds only an empty part, which pathlib drops. */
  lemma {:induction false} SplitSlashAppended(s: string)
    ensures Split(s + "/") == Split(s) + [""]
    decreases |s|
  {
    var t := s + "/";
    IndexOfSlashAppended(s);
    var k := IndexOf(s, '/');
    SplitUnfold(s, k);
    if k >= 0 {
      var rest := s[k + 1..];
      assert t[..k] == s[..k] && t[k + 1..] == rest + "/";
      SplitUnfold(t, k);
      SplitSlashAppended(rest);
      ConsSnoc(s[..k], Split(rest), "");
    } else {
      assert t[..|s|] == s && t[|s| + 1..] == "";
      SplitUnfold(t, |s|);
      SplitUnfold("", -1);
    }
  }

  /** A trailing `/` does not change the parts pathlib keeps. */
  lemma TrailingSlashSegments(s: string)
    ensures Segments(s + "/") == Segments(s)
  {
    SplitSlashAppended(s);
    DropDotsAppend(Split(s), [""]);
    assert DropDots([""]) == [];
  }

  /** `str(path)` of a project-relative path given by its components (`.` for the root). */
  function Render(segs: seq<string>): string
  {
    if segs == [] then "." else JoinSlash(segs)
  }

  /**
   * A candidate file of import resolution: a path inside the project,
   * given by its components below the project root (which may include
   * `..`), or a path outside the project tree.
   */
  datatype Cand = InProject(segs: seq<string>) | Elsewhere

  /** `bool(path.suffix)`; the project directory's own name is taken to have no suffix. */
  predicate HasSuffix(c: Cand)
  {
    match c
    case InProject(segs) => segs != [] && SuffixOfName(segs[|segs| - 1]) != ""
    case Elsewhere => true
  }

  /**
   * `path.with_suffix(ext)` on a path with no suffix.  On the project root
   * it names the sibling of the project directory, outside the project.
   */
  function WithSuffix(c: Cand, ext: string): Cand
  {
    match c
    case InProject(segs) =>
      if segs == [] then Elsewhere else InProject(segs[..|segs| - 1] + [segs[|segs| - 1] + ext])
    case Elsewhere => Elsewhere
  }

  /** `path / name`. */
  function Child(c: Cand, name: string): Cand
  {
    match c
    case InProject(segs) => InProject(segs + [name])
    case Elsewhere => Elsewhere
  }
}

/** Python's insertion-ordered `dict` with string keys, as a value. */
module OrderedDict {
  import opened Wrappers

  datatype ODict<V> = ODict(keys: seq<string>, m: map<string, V>)

  function Empty<V>(): ODict<V>
  {
    ODict([], map[])
  }

  /** Keys are listed once each, and exactly the keys of the map are listed. */
  ghost predicate Valid<V>(d: ODict<V>)
  {
    && (forall i, j :: 0 <= i < j < |d.keys| ==> d.keys[i] != d.keys[j])
    && (forall k :: k in d.m <==> k in d.keys)
  }

  /** `d[k] = v`: a new key goes last, an existing key keeps its place. */
  function Put<V>(d: ODict<V>, k: string, v: V): ODict<V>
  {
    ODict(if k in d.m then d.keys else d.keys + [k], d.m[k := v])
  }

  /** `d.get(k)`. */
  function Get<V>(d: ODict<V>, k: string): Option<V>
  {
    if k in d.m then Some(d.m[k]) else None
  }

  lemma PutValid<V>(d: ODict<V>, k: string, v: V)
    requires Valid(d)
    ensures Valid(Put(d, k, v))
    ensures Put(d, k, v).m.Keys == d.m.Keys + {k}
    ensures Get(Put(d, k, v), k) == Some(v)
  {
  }

  /** Writing `v` under each of `keys` in turn. */
  function PutAll<V>(d: ODict<V>, keys: seq<string>, v: V): ODict<V>
    decreases |keys|
  {
    if keys == [] then d else Put(PutAll(d, keys[..|keys| - 1], v), keys[|keys| - 1], v)
  }

  lemma {:induction false} PutAllFacts<V>(d: ODict<V>, keys: seq<string>, v: V)
    ensures forall k :: k in PutAll(d, keys, v).m <==> k in d.m || k in keys
    ensures forall k :: k in PutAll(d, keys, v).m ==> PutAll(d, keys, v).m[k] == if k in keys then v else d.m[k]
    ensures Valid(d) ==> Valid(PutAll(d, keys, v))
    decreases |keys|
  {
    if keys != [] {
      var init := keys[..|keys| - 1];
      PutAllFacts(d, init, v);
      assert keys == init + [keys[|keys| - 1]];
      if Valid(d) {
        PutValid(PutAll(d, init, v), keys[|keys| - 1], v);
      }
    }
  }

  /** A batch of writes: each entry writes its value under each of its keys. */
  function WriteAll<V>(d: ODict<V>, ws: seq<(seq<string>, V)>): ODict<V>
    decreases |ws|
  {
    if ws == [] then d else PutAll(WriteAll(d, ws[..|ws| - 1]), ws[|ws| - 1].0, ws[|ws| - 1].1)
  }

  /** `ws[i]` is the last entry of `ws` writing `k`. */
  predicate LastWriter<V>(ws: seq<(seq<string>, V)>, i: int, k: string)
  {
    0 <= i < |ws| && k in ws[i].0 && forall j :: i < j < |ws| ==> k !in ws[j].0
  }

  /**
   * From an empty dictionary, a batch of writes leaves exactly the keys
   * some entry writes, each holding the value of the last entry writing it.
   */
  lemma {:induction false} WriteAllLastWriterWins<V>(ws: seq<(seq<string>, V)>)
    ensures Valid(WriteAll(Empty(), ws))
    ensures forall k :: k in WriteAll(Empty(), ws).m <==> exists i :: 0 <= i < |ws| && k in ws[i].0
    ensures forall k :: k in WriteAll(Empty(), ws).m ==>
      exists i :: LastWriter(ws, i, k) && WriteAll(Empty(), ws).m[k] == ws[i].1
    decreases |ws|
  {
    if ws != [] {
      var init := ws[..|ws| - 1];
      var last := ws[|ws| - 1];
      WriteAllLastWriterWins(init);
      var d' := WriteAll(Empty(), init);
      var d := WriteAll(Empty(), ws);
      PutAllFacts(d', last.0, last.1);
      assert forall i :: 0 <= i < |init| ==> ws[i] == init[i];
      forall k | k in d.m
        ensures exists i :: LastWriter(ws, i, k) && d.m[k] == ws[i].1
      {
        if k in last.0 {
          assert LastWriter(ws, |ws| - 1, k);
        } else {
          var i :| LastWriter(init, i, k) && d'.m[k] == init[i].1;
          assert LastWriter(ws, i, k);
        }
      }
      forall k | exists i :: 0 <= i < |ws| && k in ws[i].0
        ensures k in d.m
      {
        var i :| 0 <= i < |ws| && k in ws[i].0;
        if i < |init| {
          assert k in init[i].0;
        }
      }
    }
  }
}
