/** The two checks `update_agents_file` makes before it writes: the name must
    end with ".agents.md", and the resolved target must render with the
    resolved markdown directory's rendering as a string prefix. */
module SafeWrite {
  import opened Outcomes
  import opened Text
  import opened Paths

  const AgentsSuffix := ".agents.md"

  /** `(library / "markdown").resolve()`: the resolved library with
      "markdown" added. */
  function MarkdownDir(cwd: Path, library: string): (r: Path)
    requires Canonical(cwd)
    ensures r == Resolve(cwd, library) + ["markdown"]
  {
    ResolveJoin(cwd, library, "markdown");
    SplitSegment("markdown");
    WalkOne(Resolve(cwd, library), "markdown");
    Resolve(cwd, JoinPath(library, "markdown"))
  }

  /** `(library / "markdown" / fileName).resolve()`: the file name walked
      from the markdown directory, or from the root when the name is
      absolute. */
  function Target(cwd: Path, library: string, fileName: string): (r: Path)
    requires Canonical(cwd)
    ensures r == Walk(if IsAbsolute(fileName) then [] else MarkdownDir(cwd, library), Split(fileName))
  {
    if IsAbsolute(fileName) then Resolve(cwd, JoinPath(JoinPath(library, "markdown"), fileName))
    else
      ResolveJoin(cwd, JoinPath(library, "markdown"), fileName);
      Resolve(cwd, JoinPath(JoinPath(library, "markdown"), fileName))
  }

  function BadSuffix(): Failure
  {
    HttpError(403, "File must end with '.agents.md'.")
  }

  function AccessDenied(fileName: string): Failure
  {
    HttpError(403, "Access denied: '" + fileName + "' is not in the allowed directory.")
  }

  /** The gate as the server has it: on success, the path to write. The
      prefix test has no separator after the directory. */
  function Gate(cwd: Path, library: string, fileName: string): (r: Result<Path>)
    requires Canonical(cwd)
    ensures !EndsWith(fileName, AgentsSuffix) ==> r == Err(BadSuffix())
    ensures r.Ok? ==> r.value == Target(cwd, library, fileName)
  {
    if !EndsWith(fileName, AgentsSuffix) then Err(BadSuffix())
    else
      var dir := MarkdownDir(cwd, library);
      var target := Target(cwd, library, fileName);
      if !StartsWith(Render(target), Render(dir)) then Err(AccessDenied(fileName))
      else Ok(target)
  }

  /** The gate with the separator the containment test evidently intends. */
  function ContainedGate(cwd: Path, library: string, fileName: string): (r: Result<Path>)
    requires Canonical(cwd)
    ensures !EndsWith(fileName, AgentsSuffix) ==> r == Err(BadSuffix())
    ensures r.Ok? ==> r.value == Target(cwd, library, fileName)
  {
    if !EndsWith(fileName, AgentsSuffix) then Err(BadSuffix())
    else
      var dir := MarkdownDir(cwd, library);
      var target := Target(cwd, library, fileName);
      if !StartsWith(Render(target), Render(dir) + "/") then Err(AccessDenied(fileName))
      else Ok(target)
  }

  // ---------------------------------------------------------------------------
  // Shape of the resolved paths
  // ---------------------------------------------------------------------------

  /** Walking one ordinary segment descends into it. */
  lemma WalkOne(base: Path, s: string)
    requires Canonical(base) && IsSegment(s) && s != "." && s != ".."
    ensures Walk(base, [s]) == base + [s]
  {
    assert [s][1..] == [];
  }

  /** A walk ending in an ordinary segment ends at that segment. */
  lemma WalkLast(base: Path, segs: seq<string>)
    requires Canonical(base) && Segments(segs) && segs != []
    requires Last(segs) != "." && Last(segs) != ".."
    ensures Walk(base, segs) != [] && Last(Walk(base, segs)) == Last(segs)
  {
    var n := |segs| - 1;
    assert segs == segs[..n] + [segs[n]];
    WalkAppend(base, segs[..n], [segs[n]]);
    WalkOne(Walk(base, segs[..n]), segs[n]);
  }

  /** The last segment of the target is the last segment of the name, and
      it ends with ".agents.md". */
  lemma TargetName(cwd: Path, library: string, fileName: string)
    requires Canonical(cwd) && EndsWith(fileName, AgentsSuffix)
    ensures Target(cwd, library, fileName) != []
    ensures EndsWith(Last(Target(cwd, library, fileName)), AgentsSuffix)
  {
    assert '/' !in AgentsSuffix;
    SplitEndsWith(fileName, AgentsSuffix);
    var segs := Split(fileName);
    var last := Last(segs);
    assert last != "." && last != ".." by {
      assert |last| >= |AgentsSuffix|;
    }
    WalkLast(if IsAbsolute(fileName) then [] else MarkdownDir(cwd, library), segs);
  }

  // ---------------------------------------------------------------------------
  // What the gate as written guarantees
  // ---------------------------------------------------------------------------

  /** Whatever the gate accepts lies strictly inside the resolved library, one
      level down in a directory whose name begins with "markdown", and is a
      file whose name ends with ".agents.md". */
  lemma GateConfinesToLibrary(cwd: Path, library: string, fileName: string)
    requires Canonical(cwd)
    ensures Gate(cwd, library, fileName).Ok? ==>
      var lib := Resolve(cwd, library);
      var t := Gate(cwd, library, fileName).value;
      && |lib| < |t| && t[..|lib|] == lib
      && StartsWith(t[|lib|], "markdown")
      && EndsWith(Last(t), AgentsSuffix)
  {
    var lib := Resolve(cwd, library);
    var dir := MarkdownDir(cwd, library);
    var t := Target(cwd, library, fileName);
    if StartsWith(Render(t), Render(dir)) {
      UnseparatedPrefix(dir, t);
      assert dir[..|dir| - 1] == lib;
    }
    if EndsWith(fileName, AgentsSuffix) {
      TargetName(cwd, library, fileName);
    }
  }

  /** A relative name is walked from the markdown directory. */
  lemma RelativeTarget(cwd: Path, library: string, name: string, segs: seq<string>)
    requires Canonical(cwd) && !IsAbsolute(name) && Split(name) == segs
    ensures Segments(segs)
    ensures Target(cwd, library, name) == Walk(MarkdownDir(cwd, library), segs)
  {
  }

  lemma SplitUp(base: string)
    requires IsSegment(base)
    ensures Split("../" + base) == ["..", base]
  {
    assert "../" + base == ".." + "/" + base;
    SplitJoin("..", base);
    SplitSegment("..");
    SplitSegment(base);
  }

  lemma SplitUpUp(base: string)
    requires IsSegment(base)
    ensures Split("../../" + base) == ["..", "..", base]
  {
    assert "../../" + base == ".." + "/" + ("../" + base);
    SplitJoin("..", "../" + base);
    SplitUp(base);
    SplitSegment("..");
  }

  lemma EndsWithExtended(pre: string, base: string)
    requires EndsWith(base, AgentsSuffix)
    ensures EndsWith(pre + base, AgentsSuffix)
  {
    var name := pre + base;
    assert name[|name| - |AgentsSuffix|..] == base[|base| - |AgentsSuffix|..];
  }

  /** "../../" + base lands beside the library, as a child of its parent. */
  lemma TwoLevelsUpTarget(cwd: Path, library: string, base: string)
    requires Canonical(cwd)
    requires IsSegment(base) && base != "." && base != ".."
    ensures Target(cwd, library, "../../" + base) == Parent(Resolve(cwd, library)) + [base]
  {
    var lib := Resolve(cwd, library);
    SplitUpUp(base);
    RelativeTarget(cwd, library, "../../" + base, ["..", "..", base]);
    assert ["..", "..", base][1..] == ["..", base];
    assert ["..", base][1..] == [base];
    assert Parent(lib + ["markdown"]) == lib;
    WalkOne(Parent(lib), base);
  }

  /** A name that climbs two levels out of the markdown directory, to a
      file whose name does not begin with "markdown", is refused for every
      library and every working directory. */
  lemma TwoLevelsUpRejected(cwd: Path, library: string, base: string)
    requires Canonical(cwd)
    requires IsSegment(base) && EndsWith(base, AgentsSuffix) && !StartsWith(base, "markdown")
    ensures Gate(cwd, library, "../../" + base) == Err(AccessDenied("../../" + base))
  {
    assert base != "." && base != ".." by { assert |base| >= |AgentsSuffix|; }
    TwoLevelsUpTarget(cwd, library, base);
    GateConfinesToLibrary(cwd, library, "../../" + base);
    EndsWithExtended("../../", base);
  }

  /** "../../bad_location.agents.md" is refused. */
  lemma TraversalRejected(cwd: Path, library: string, name: string)
    requires Canonical(cwd) && name == "../../bad_location.agents.md"
    ensures Gate(cwd, library, name) == Err(AccessDenied(name))
  {
    BadLocationName(name);
    TwoLevelsUpRejected(cwd, library, name[6..]);
  }

  lemma BadLocationName(name: string)
    requires name == "../../bad_location.agents.md"
    ensures name == "../../" + name[6..]
    ensures IsSegment(name[6..]) && EndsWith(name[6..], AgentsSuffix)
    ensures !StartsWith(name[6..], "markdown")
  {
    var base := name[6..];
    assert base == "bad_location.agents.md";
    assert base[0] != 'm';
  }

  /** A name with no '/' is written directly inside the markdown
      directory. */
  lemma PlainTarget(cwd: Path, library: string, fileName: string)
    requires Canonical(cwd)
    requires IsSegment(fileName) && fileName != "." && fileName != ".."
    ensures Target(cwd, library, fileName) == MarkdownDir(cwd, library) + [fileName]
  {
    SplitSegment(fileName);
    RelativeTarget(cwd, library, fileName, [fileName]);
    WalkOne(MarkdownDir(cwd, library), fileName);
  }

  /** A name with no '/' that ends with ".agents.md" is written directly
      inside the markdown directory, by either gate. */
  lemma PlainNameAccepted(cwd: Path, library: string, fileName: string)
    requires Canonical(cwd)
    requires '/' !in fileName && EndsWith(fileName, AgentsSuffix)
    ensures Gate(cwd, library, fileName) == Ok(MarkdownDir(cwd, library) + [fileName])
    ensures ContainedGate(cwd, library, fileName) == Ok(MarkdownDir(cwd, library) + [fileName])
  {
    var dir := MarkdownDir(cwd, library);
    assert fileName != "." && fileName != ".." && fileName != [] by {
      assert |fileName| >= |AgentsSuffix|;
    }
    PlainTarget(cwd, library, fileName);
    RenderChild(dir, fileName);
    var t := dir + [fileName];
    assert Render(dir) == Concat(dir);
    assert Render(t) == (Render(dir) + "/") + fileName;
  }

  /** The gate as written lets a name climb out of the markdown directory
      into a sibling whose name begins with "markdown": the target is then a
      direct child of the library, not of the markdown directory. */
  lemma SiblingAccepted(cwd: Path, library: string, base: string)
    requires Canonical(cwd)
    requires IsSegment(base) && EndsWith(base, AgentsSuffix) && StartsWith(base, "markdown")
    ensures
      var t := Resolve(cwd, library) + [base];
      && Gate(cwd, library, "../" + base) == Ok(t)
      && !(|MarkdownDir(cwd, library)| < |t|)
  {
    assert base != "." && base != ".." by { assert |base| >= |AgentsSuffix|; }
    var lib := Resolve(cwd, library);
    OneLevelUpTarget(cwd, library, base);
    RenderChild(lib, base);
    RenderChild(lib, "markdown");
    assert base[..8] == "markdown";
    EndsWithExtended("../", base);
  }

  /** "../" + base lands in the library itself. */
  lemma OneLevelUpTarget(cwd: Path, library: string, base: string)
    requires Canonical(cwd)
    requires IsSegment(base) && base != "." && base != ".."
    ensures Target(cwd, library, "../" + base) == Resolve(cwd, library) + [base]
  {
    var lib := Resolve(cwd, library);
    SplitUp(base);
    RelativeTarget(cwd, library, "../" + base, ["..", base]);
    assert ["..", base][1..] == [base];
    assert Parent(lib + ["markdown"]) == lib;
    WalkOne(lib, base);
  }

  lemma {:induction false} RenderChild(p: Path, s: string)
    ensures Render(p + [s]) == Concat(p) + "/" + s
  {
    ConcatAppend(p, [s]);
    assert [s][1..] == [];
    assert Concat([s]) == "/" + s + Concat([]);
    assert Concat([]) == [];
  }

  /** Concretely: "../markdown_evil.agents.md" is accepted and lands beside
      the markdown directory. */
  lemma SiblingDirectoryAccepted(cwd: Path, library: string, name: string)
    requires Canonical(cwd) && name == "../markdown_evil.agents.md"
    ensures
      var t := Resolve(cwd, library) + ["markdown_evil.agents.md"];
      && Gate(cwd, library, name) == Ok(t)
      && !(|MarkdownDir(cwd, library)| < |t|)
  {
    SiblingName(name);
    SiblingAccepted(cwd, library, name[3..]);
  }

  lemma SiblingName(name: string)
    requires name == "../markdown_evil.agents.md"
    ensures name == "../" + name[3..] && name[3..] == "markdown_evil.agents.md"
    ensures IsSegment(name[3..]) && EndsWith(name[3..], AgentsSuffix)
    ensures StartsWith(name[3..], "markdown")
  {
    var base := name[3..];
    assert base == "markdown_evil.agents.md";
  }

  // ---------------------------------------------------------------------------
  // What the corrected gate guarantees
  // ---------------------------------------------------------------------------

  /** The corrected gate accepts exactly the names ending with ".agents.md"
      whose target lies strictly inside the markdown directory. */
  lemma ContainedGateExact(cwd: Path, library: string, fileName: string)
    requires Canonical(cwd)
    ensures
      var dir := MarkdownDir(cwd, library);
      var t := Target(cwd, library, fileName);
      (ContainedGate(cwd, library, fileName).Ok?
       <==> EndsWith(fileName, AgentsSuffix) && |dir| < |t| && t[..|dir|] == dir)
  {
    var dir := MarkdownDir(cwd, library);
    var t := Target(cwd, library, fileName);
    SeparatedPrefix(dir, t);
    assert Render(dir) == Concat(dir);
    assert Render(t) == Concat(t) || (t == [] && Render(t) == "/");
    assert Concat(dir) != [] && Concat(dir)[0] == '/';
    assert StartsWith("/", Concat(dir) + "/") ==> |Concat(dir)| == 0;
  }

  /** The gate as written accepts exactly the names ending with ".agents.md"
      whose target lies strictly inside the resolved library, in a top
      directory whose name begins with "markdown": the markdown directory
      itself, or any sibling of it such as "markdown_evil.agents.md". */
  lemma GateExact(cwd: Path, library: string, fileName: string)
    requires Canonical(cwd)
    ensures
      var lib := Resolve(cwd, library);
      var t := Target(cwd, library, fileName);
      (Gate(cwd, library, fileName).Ok?
       <==> EndsWith(fileName, AgentsSuffix) && |lib| < |t| && t[..|lib|] == lib && StartsWith(t[|lib|], "markdown"))
  {
    var lib := Resolve(cwd, library);
    var dir := MarkdownDir(cwd, library);
    var t := Target(cwd, library, fileName);
    assert dir[..|dir| - 1] == lib && dir[|dir| - 1] == "markdown";
    if StartsWith(Render(t), Render(dir)) {
      UnseparatedPrefix(dir, t);
    }
    if |lib| < |t| && t[..|lib|] == lib && StartsWith(t[|lib|], "markdown") {
      UnseparatedPrefixComplete(dir, t);
    }
  }

  /** The corrected gate only narrows the gate as written: what it accepts,
      the gate as written accepts with the same target, so every name the
      gate as written refuses (such as "../../bad_location.agents.md") it
      refuses too. */
  lemma ContainedGateNarrows(cwd: Path, library: string, fileName: string)
    requires Canonical(cwd)
    ensures ContainedGate(cwd, library, fileName).Ok? ==> Gate(cwd, library, fileName) == ContainedGate(cwd, library, fileName)
    ensures Gate(cwd, library, fileName).Err? ==> ContainedGate(cwd, library, fileName) == Gate(cwd, library, fileName)
  {
    var rd := Render(MarkdownDir(cwd, library));
    var rt := Render(Target(cwd, library, fileName));
    if StartsWith(rt, rd + "/") {
      assert rt[..|rd|] == (rd + "/")[..|rd|];
    }
  }

  /** The corrected gate refuses the sibling-directory name. */
  lemma ContainedGateBlocksSibling(cwd: Path, library: string, name: string)
    requires Canonical(cwd) && name == "../markdown_evil.agents.md"
    ensures ContainedGate(cwd, library, name) == Err(AccessDenied(name))
  {
    SiblingDirectoryAccepted(cwd, library, name);
    ContainedGateExact(cwd, library, name);
    assert EndsWith(name, AgentsSuffix) by {
      assert name[|name| - |AgentsSuffix|..] == AgentsSuffix;
    }
  }
}
