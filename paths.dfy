/** POSIX paths as `pathlib` treats them, and an abstract file system.

    A canonical path is the sequence of segments of an absolute path after
    lexical resolution: no empty segment, no "." or "..", no '/' inside a
    segment. `Path.resolve()` is modelled as that lexical resolution (symbolic
    links are not modelled), `str()` of a resolved path as `Render`. */
module Paths {
  import opened Text

  type Path = seq<string>

  predicate IsSegment(s: string)
  {
    s != [] && '/' !in s
  }

  predicate Segments(r: seq<string>)
  {
    forall i :: 0 <= i < |r| ==> IsSegment(r[i])
  }

  predicate Canonical(p: Path)
  {
    forall i :: 0 <= i < |p| ==> IsSegment(p[i]) && p[i] != "." && p[i] != ".."
  }

  predicate IsAbsolute(s: string)
  {
    s != [] && s[0] == '/'
  }

  // ---------------------------------------------------------------------------
  // Splitting into segments
  // ---------------------------------------------------------------------------

  /** Index of the first '/' in `s`, or `|s|` when there is none. */
  function NextSlash(s: string): (k: nat)
    ensures k <= |s| && '/' !in s[..k]
    ensures k < |s| ==> s[k] == '/'
  {
    if s == [] || s[0] == '/' then 0
    else
      var k := NextSlash(s[1..]);
      assert s[..k + 1] == [s[0]] + s[1..][..k];
      k + 1
  }

  /** The non-empty '/'-separated segments of `s`, in order. */
  function Split(s: string): (r: seq<string>)
    ensures Segments(r)
    decreases |s|
  {
    if s == [] then []
    else if s[0] == '/' then Split(s[1..])
    else
      var k := NextSlash(s);
      [s[..k]] + Split(s[k..])
  }

  lemma {:induction false} SplitJoin(a: string, b: string)
    ensures Split(a + "/" + b) == Split(a) + Split(b)
    decreases |a|
  {
    if a == [] {
      assert a + "/" + b == "/" + b && ("/" + b)[1..] == b;
    } else if a[0] == '/' {
      assert (a + "/" + b)[1..] == a[1..] + "/" + b;
      SplitJoin(a[1..], b);
    } else {
      var k := SplitJoinStep(a, b);
      SplitJoin(a[k..], b);
    }
  }

  /** One segment of `a`, taken off the front of both sides of `SplitJoin`. */
  lemma SplitJoinStep(a: string, b: string) returns (k: nat)
    requires a != [] && a[0] != '/'
    ensures 0 < k <= |a|
    ensures Split(a) == [a[..k]] + Split(a[k..])
    ensures Split(a + "/" + b) == [a[..k]] + Split(a[k..] + "/" + b)
  {
    k := NextSlash(a);
    var s := a + "/" + b;
    NextSlashExtends(a, "/" + b);
    assert s == a + ("/" + b);
    assert s[0] == a[0];
    assert s[..k] == a[..k];
    assert s[k..] == a[k..] + "/" + b;
  }

  lemma {:induction false} NextSlashExtends(a: string, c: string)
    requires c != [] && c[0] == '/'
    ensures NextSlash(a + c) == NextSlash(a)
    decreases |a|
  {
    if a != [] && a[0] != '/' {
      assert (a + c)[1..] == a[1..] + c;
      NextSlashExtends(a[1..], c);
    }
  }

  // ---------------------------------------------------------------------------
  // Lexical resolution
  // ---------------------------------------------------------------------------

  /** Parent of a canonical path; the root is its own parent. */
  function Parent(p: Path): (r: Path)
    ensures |r| == if p == [] then 0 else |p| - 1
    ensures r == p[..|r|]
  {
    if p == [] then [] else p[..|p| - 1]
  }

  /** Walks `segs` from `base`: "." stays, ".." goes to the parent,
      anything else descends. */
  function Walk(base: Path, segs: seq<string>): (r: Path)
    requires Canonical(base)
    requires Segments(segs)
    ensures Canonical(r)
    decreases |segs|
  {
    if segs == [] then base
    else
      var s := segs[0];
      var next := if s == "." then base
                  else if s == ".." then Parent(base)
                  else base + [s];
      Walk(next, segs[1..])
  }

  lemma {:induction false} WalkAppend(base: Path, xs: seq<string>, ys: seq<string>)
    requires Canonical(base)
    requires Segments(xs)
    requires Segments(ys)
    ensures Walk(base, xs + ys) == Walk(Walk(base, xs), ys)
    decreases |xs|
  {
    if xs != [] {
      var s := xs[0];
      var next := if s == "." then base
                  else if s == ".." then Parent(base)
                  else base + [s];
      assert (xs + ys)[0] == s && (xs + ys)[1..] == xs[1..] + ys;
      WalkAppend(next, xs[1..], ys);
    } else {
      assert xs + ys == ys;
    }
  }

  /** `Path(s).resolve()` with working directory `cwd`, lexically. */
  function Resolve(cwd: Path, s: string): (r: Path)
    requires Canonical(cwd)
    ensures Canonical(r)
  {
    if IsAbsolute(s) then Walk([], Split(s)) else Walk(cwd, Split(s))
  }

  /** `Path(a) / b`: an absolute `b` replaces `a`; `Path("")` is ".". */
  function JoinPath(a: string, b: string): (r: string)
    ensures IsAbsolute(b) ==> r == b
    ensures !IsAbsolute(b) ==> Split(r) == Split(a) + Split(b)
    ensures !IsAbsolute(b) ==> (IsAbsolute(r) <==> IsAbsolute(a))
  {
    if IsAbsolute(b) then b
    else if a == [] then b
    else
      SplitJoin(a, b);
      a + "/" + b
  }

  /** Resolving a join is resolving the base and walking on from there. */
  lemma ResolveJoin(cwd: Path, a: string, b: string)
    requires Canonical(cwd)
    requires !IsAbsolute(b)
    ensures Resolve(cwd, JoinPath(a, b)) == Walk(Resolve(cwd, a), Split(b))
  {
    if a != [] {
      SplitJoin(a, b);
      var base: Path := if IsAbsolute(a) then [] else cwd;
      assert IsAbsolute(a + "/" + b) == IsAbsolute(a);
      WalkAppend(base, Split(a), Split(b));
    }
  }

  /** `Path(s)` keeps ".." but drops "." segments and repeated slashes. */
  function PureSegments(segs: seq<string>): (r: seq<string>)
  {
    if segs == [] then []
    else (if segs[0] == "." then [] else [segs[0]]) + PureSegments(segs[1..])
  }

  function JoinSegments(segs: seq<string>): string
  {
    if segs == [] then ""
    else if |segs| == 1 then segs[0]
    else segs[0] + "/" + JoinSegments(segs[1..])
  }

  /** `str(Path(s))`. */
  function PureString(s: string): string
  {
    var body := JoinSegments(PureSegments(Split(s)));
    if IsAbsolute(s) then "/" + body else if body == [] then "." else body
  }

  // ---------------------------------------------------------------------------
  // Rendering and string prefixes
  // ---------------------------------------------------------------------------

  /** "/" followed by each segment, a '/' before each. */
  function Concat(p: Path): string
  {
    if p == [] then "" else "/" + p[0] + Concat(p[1..])
  }

  /** `str()` of a resolved path: always absolute, and splitting it gives
      the path back (`RenderSplit`). */
  function Render(p: Path): (r: string)
    ensures IsAbsolute(r)
  {
    if p == [] then "/" else Concat(p)
  }

  /** Splitting a rendered path recovers its segments. */
  lemma {:induction false} RenderSplit(p: Path)
    requires Segments(p)
    ensures Split(Render(p)) == p
  {
    if p == [] {
      assert Split("/") == Split("/"[1..]);
    } else {
      ConcatSplit(p);
    }
  }

  lemma {:induction false} ConcatSplit(p: Path)
    requires Segments(p)
    ensures Split(Concat(p)) == p
    decreases |p|
  {
    if p != [] {
      var x := p[0] + Concat(p[1..]);
      assert Concat(p) == "/" + x;
      assert Split(Concat(p)) == Split(x);
      if p[1..] == [] {
        assert x == p[0];
        SplitSegment(p[0]);
      } else {
        var y := p[1] + Concat(p[2..]);
        assert p[1..][0] == p[1] && p[1..][1..] == p[2..];
        assert Concat(p[1..]) == "/" + y;
        assert x == p[0] + "/" + y;
        SplitJoin(p[0], y);
        SplitSegment(p[0]);
        assert Split("/" + y) == Split(y);
        ConcatSplit(p[1..]);
      }
    }
  }

  lemma {:induction false} ConcatAppend(a: Path, b: Path)
    ensures Concat(a + b) == Concat(a) + Concat(b)
  {
    if a != [] {
      assert (a + b)[0] == a[0] && (a + b)[1..] == a[1..] + b;
      ConcatAppend(a[1..], b);
    } else {
      assert a + b == b;
    }
  }

  lemma ConcatShape(p: Path)
    ensures p != [] ==> |Concat(p)| > 0 && Concat(p)[0] == '/'
    ensures p == [] ==> Concat(p) == []
  {
  }

  /** Two strings that both start with a segment followed by '/' or the end:
      if one starts with the other and the longer continues with '/', the
      segments are the same. */
  lemma SegmentMatch(x: string, y: string, u: string, v: string)
    requires '/' !in x && '/' !in y
    requires u == [] || u[0] == '/'
    requires v != [] && v[0] == '/'
    requires StartsWith(y + u, x + v)
    ensures x == y && StartsWith(u, v)
  {
    var s, p := y + u, x + v;
    // the strings agree on |p| characters; the segments hold no '/', and
    // each is followed by a '/' (or, for y, possibly by the end)
    assert forall i :: 0 <= i < |p| ==> s[i] == p[i] by { assert s[..|p|] == p; }
    assert forall i :: 0 <= i < |x| ==> x[i] != '/';
    assert forall i :: 0 <= i < |y| ==> y[i] != '/';
    assert |y| < |s| ==> s[|y|] == '/';
    assert p[|x|] == '/';
    assert |x| == |y|;
    assert s[..|x|] == y && p[..|x|] == x;
    assert s[|x|..] == u && p[|x|..] == v;
    assert s[..|p|][|x|..] == u[..|v|];
  }

  /** A segment that a string starting with it ends at '/' or the end of. */
  lemma SegmentPrefix(x: string, y: string, u: string)
    requires '/' !in x && '/' !in y
    requires u == [] || u[0] == '/'
    requires StartsWith(y + u, x)
    ensures StartsWith(y, x)
  {
    var s := y + u;
    assert forall i :: 0 <= i < |x| ==> s[i] == x[i] by { assert s[..|x|] == x; }
    assert forall i :: 0 <= i < |x| ==> x[i] != '/';
    assert |y| < |s| ==> s[|y|] == '/';
    assert |x| <= |y|;
    assert s[..|x|] == y[..|x|];
  }

  /** The corrected containment test: `t` renders with `d`'s rendering and a
      '/' as a prefix exactly when `d` is a proper prefix of `t`. */
  lemma {:induction false} SeparatedPrefix(d: Path, t: Path)
    requires Canonical(d) && Canonical(t)
    ensures StartsWith(Concat(t), Concat(d) + "/") <==> (|d| < |t| && t[..|d|] == d)
  {
    if |d| < |t| && t[..|d|] == d {
      assert t == d + t[|d|..];
      ConcatAppend(d, t[|d|..]);
      ConcatShape(t[|d|..]);
      assert Concat(t) == Concat(d) + Concat(t[|d|..]);
      assert Concat(t)[..|Concat(d)| + 1] == Concat(d) + "/";
    }
    if StartsWith(Concat(t), Concat(d) + "/") {
      SeparatedPrefixSound(d, t);
    }
  }

  lemma {:induction false} SeparatedPrefixSound(d: Path, t: Path)
    requires Canonical(d) && Canonical(t)
    requires StartsWith(Concat(t), Concat(d) + "/")
    ensures |d| < |t| && t[..|d|] == d
  {
    assert Concat([]) == [];
    assert t != [];
    if d != [] {
      ConcatShape(d[1..]);
      ConcatShape(t[1..]);
      assert IsSegment(d[0]) && IsSegment(t[0]);
      var v := Concat(d[1..]) + "/";
      assert Concat(d) + "/" == "/" + (d[0] + v);
      assert Concat(t) == "/" + (t[0] + Concat(t[1..]));
      assert StartsWith(t[0] + Concat(t[1..]), d[0] + v) by {
        var long := Concat(t);
        var pre := Concat(d) + "/";
        assert long[1..][..|pre| - 1] == long[..|pre|][1..];
      }
      SegmentMatch(d[0], t[0], Concat(t[1..]), v);
      SeparatedPrefixSound(d[1..], t[1..]);
      assert t[..|d|] == [t[0]] + t[1..][..|d| - 1];
    }
  }

  /** The test as the server writes it, with no separator: when `t` renders
      with `d`'s rendering as a prefix, `t` agrees with `d` up to its last
      segment and has, at that depth, a segment beginning with `d`'s last. */
  lemma {:induction false} UnseparatedPrefix(d: Path, t: Path)
    requires Canonical(d) && Canonical(t) && d != []
    requires StartsWith(Render(t), Render(d))
    ensures |d| <= |t|
    ensures t[..|d| - 1] == d[..|d| - 1]
    ensures StartsWith(t[|d| - 1], d[|d| - 1])
  {
    assert Render([]) == "/";
    assert IsSegment(d[0]) && |Concat(d)| >= 2;
    assert t != [];
    {
      assert IsSegment(d[0]) && IsSegment(t[0]);
      ConcatShape(d[1..]);
      ConcatShape(t[1..]);
      assert Concat(d) == "/" + (d[0] + Concat(d[1..]));
      assert Concat(t) == "/" + (t[0] + Concat(t[1..]));
      assert StartsWith(t[0] + Concat(t[1..]), d[0] + Concat(d[1..])) by {
        var long := Concat(t);
        var pre := Concat(d);
        assert long[1..][..|pre| - 1] == long[..|pre|][1..];
      }
      if |d| == 1 {
        assert d[1..] == [];
        assert d[0] + Concat(d[1..]) == d[0];
        SegmentPrefix(d[0], t[0], Concat(t[1..]));
      } else {
        SegmentMatch(d[0], t[0], Concat(t[1..]), Concat(d[1..]));
        assert Concat([]) == [];
        assert t[1..] != [];
        UnseparatedPrefix(d[1..], t[1..]);
        assert t[..|d| - 1] == [t[0]] + t[1..][..|d| - 2];
        assert d[..|d| - 1] == [d[0]] + d[1..][..|d| - 2];
      }
    }
  }

  // ---------------------------------------------------------------------------
  // File names
  // ---------------------------------------------------------------------------

  /** The converse of `UnseparatedPrefix`: a path that agrees with `d` up to
      its last segment, and has at that depth a segment beginning with
      `d`'s last, renders with `d`'s rendering as a prefix. */
  lemma UnseparatedPrefixComplete(d: Path, t: Path)
    requires d != [] && |d| <= |t|
    requires t[..|d| - 1] == d[..|d| - 1]
    requires StartsWith(t[|d| - 1], d[|d| - 1])
    ensures StartsWith(Render(t), Render(d))
  {
    var k := |d| - 1;
    var x, y := d[k], t[k];
    assert d == d[..k] + [x];
    assert t == t[..k] + ([y] + t[k + 1..]);
    ConcatAppend(d[..k], [x]);
    ConcatAppend(t[..k], [y] + t[k + 1..]);
    assert Concat([x]) == "/" + x by { assert [x][1..] == []; }
    assert Concat([y] + t[k + 1..]) == "/" + y + Concat(t[k + 1..]) by {
      assert ([y] + t[k + 1..])[1..] == t[k + 1..];
    }
    var pre := Concat(d[..k]) + "/";
    assert Concat(t) == pre + y + Concat(t[k + 1..]);
    assert Concat(d) == pre + x;
    assert y[..|x|] == x;
    assert (pre + y + Concat(t[k + 1..]))[..|pre + x|] == pre + x;
  }

  /** `s.rfind(c)`: the last index of `c` in `s`, or -1. */
  function LastIndexOf(s: string, c: char): (i: int)
    ensures -1 <= i < |s|
    ensures i >= 0 ==> s[i] == c
    ensures forall j :: i < j < |s| ==> s[j] != c
  {
    if s == [] then -1
    else if s[|s| - 1] == c then |s| - 1
    else LastIndexOf(s[..|s| - 1], c)
  }


  /** `PurePath.stem` of a file name: the name without its final suffix,
      where a suffix starts at the last '.' and the name's first character
      and a trailing '.' do not start one. */
  function Stem(name: string): (r: string)
    ensures |r| <= |name| && r == name[..|r|]
    ensures r != name ==> 0 < |r| < |name| - 1 && |r| == LastIndexOf(name, '.')
  {
    var i := LastIndexOf(name, '.');
    if 0 < i < |name| - 1 then name[..i] else name
  }

  /** The stem of a name that ends with a suffix whose only '.' is its first
      character: the name without that suffix, unless the suffix is the
      whole name. */
  lemma StemOfSuffix(name: string, suffix: string)
    requires EndsWith(name, suffix) && |suffix| >= 2
    requires suffix[0] == '.' && forall j :: 0 < j < |suffix| ==> suffix[j] != '.'
    ensures Stem(name) == if |name| > |suffix| then name[..|name| - |suffix|] else name
  {
    var k := |name| - |suffix|;
    assert name[k..] == suffix;
    assert name[k] == '.' by { assert name[k..][0] == suffix[0]; }
    forall j | k < j < |name| ensures name[j] != '.' {
      assert name[j] == name[k..][j - k];
    }
    assert LastIndexOf(name, '.') == k;
  }
  lemma SplitSegment(s: string)
    requires IsSegment(s)
    ensures Split(s) == [s]
  {
    assert s[0] in s;
    var k := NextSlash(s);
    assert forall j :: 0 <= j < |s| ==> s[j] != '/';
    assert k == |s|;
    assert s[..k] == s && s[k..] == [];
    assert Split(s) == [s[..k]] + Split(s[k..]);
  }

  function Last(p: seq<string>): string
    requires p != []
  {
    p[|p| - 1]
  }

  /** A path string that ends with a slash-free `x` has a last segment, and
      that segment ends with `x`. */
  lemma {:induction false} SplitEndsWith(s: string, x: string)
    requires x != [] && '/' !in x && EndsWith(s, x)
    ensures Split(s) != [] && EndsWith(Last(Split(s)), x)
    decreases |s|
  {
    var n := |s| - |x|;
    assert s[n..] == x;
    assert forall j :: n <= j < |s| ==> s[j] != '/' by {
      forall j | n <= j < |s| ensures s[j] != '/' {
        assert s[j] == x[j - n];
      }
    }
    if s[0] == '/' {
      assert s[1..][n - 1..] == x;
      SplitEndsWith(s[1..], x);
    } else {
      var k := NextSlash(s);
      assert k < |s| ==> k < n;
      if k == |s| {
        assert s[..k] == s && s[k..] == [];
        assert Split(s) == [s];
      } else {
        assert s[k..][n - k..] == x;
        SplitEndsWith(s[k..], x);
        assert Split(s) == [s[..k]] + Split(s[k..]);
      }
    }
  }

  // ---------------------------------------------------------------------------
  // The file system
  // ---------------------------------------------------------------------------

  /** A file whose text reads back, or one whose read fails (a decoding or
      permission error), which the loaders skip. */
  datatype FileEntry = Readable(text: string) | Unreadable

  /** Files and directories by canonical path. */
  datatype FileSystem = FileSystem(files: map<Path, FileEntry>, dirs: set<Path>)
  {
    /** `write_text` succeeds when the parent directory exists and the target
        is not a directory. */
    predicate CanWrite(p: Path)
    {
      p != [] && Parent(p) in dirs && p !in dirs
    }

    function Write(p: Path, text: string): (fs: FileSystem)
      ensures fs.dirs == dirs && fs.files.Keys == files.Keys + {p}
      ensures fs.files[p] == Readable(text)
      ensures forall q :: q in files && q != p ==> fs.files[q] == files[q]
    {
      FileSystem(files[p := Readable(text)], dirs)
    }
  }

  /** `root.glob(sub + "/" + "*" + suffix)`: a file directly inside `root/sub`
      whose name ends with `suffix`. */
  predicate GlobMatch(root: Path, p: Path, sub: string, suffix: string)
  {
    |p| == |root| + 2 && p[..|root|] == root && p[|root|] == sub && EndsWith(p[|root| + 1], suffix)
  }
}
