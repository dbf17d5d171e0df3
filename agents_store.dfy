/** The server's state and its tools: the AGENTS.md instructions held in
    memory, the bash scripts registered as resources, the loaders that fill
    both from the agents library, and the tools that read, list and update
    the instructions. */
module AgentsStore {
  import opened Outcomes
  import opened Text
  import opened Paths
  import opened Ordering
  import opened SafeWrite
  import opened Scripts

  const LibraryVariable := "AGENTS_LIBRARY_PATH"
  const DefaultLibrary := "/app/agents-library"
  const MarkdownType := "text/markdown"

  // ---------------------------------------------------------------------------
  // Loading the markdown files
  // ---------------------------------------------------------------------------

  /** The name a markdown file is served under: its stem with every
      ".agents" taken out. */
  function DocKey(fileName: string): (r: string)
    ensures |r| <= |fileName|
    ensures NoAgentsIn(Stem(fileName)) ==> r == Stem(fileName)
  {
    var stem := Stem(fileName);
    assert NoAgentsIn(stem) ==> RemoveAll(stem, ".agents") == stem by {
      if NoAgentsIn(stem) { NoAgentsRemoved(stem); }
    }
    RemoveAll(stem, ".agents")
  }

  /** `read_text()` of a glob match: the text of a readable regular file,
      with its line endings translated as text mode does. Reading a
      directory or an unreadable file raises, and the loader skips that
      entry. */
  function ReadText(fs: FileSystem, p: Path): (r: Option<string>)
    ensures r.Some? <==> p in fs.files && p !in fs.dirs && fs.files[p].Readable?
    ensures r.Some? ==> '\r' !in r.value && |r.value| <= |fs.files[p].text|
    ensures r.Some? && '\r' !in fs.files[p].text ==> r.value == fs.files[p].text
  {
    if p in fs.files && p !in fs.dirs && fs.files[p].Readable? then
      var text := fs.files[p].text;
      assert '\r' !in text ==> TranslateNewlines(text) == text by {
        if '\r' !in text { NoCarriageReturnUnchanged(text); }
      }
      Some(TranslateNewlines(text))
    else None
  }

  /** The entries the glob of `*.agents.md` names inside `root/markdown` yields. */
  function MarkdownMatches(fs: FileSystem, root: Path): set<Path>
  {
    set p | p in fs.files.Keys + fs.dirs && GlobMatch(root, p, "markdown", AgentsSuffix)
  }

  /** The entry `p` is read and stored under the key `k`. */
  predicate Supplies(fs: FileSystem, p: Path, k: string)
  {
    p != [] && ReadText(fs, p).Some? && DocKey(Last(p)) == k
  }

  /** The keys the readable entries among `done` are stored under. */
  function LoadedKeys(fs: FileSystem, done: set<Path>): set<string>
  {
    set p | p in done && p != [] && ReadText(fs, p).Some? :: DocKey(Last(p))
  }

  /** `after` is `before` once the entries in `done` have been loaded, in
      some order: every key an entry supplies holds the text of one such
      entry, and every other key is left as it was. Nothing is removed. */
  predicate LoadedFrom(before: map<string, string>, after: map<string, string>,
                       fs: FileSystem, done: set<Path>)
  {
    && after.Keys == before.Keys + LoadedKeys(fs, done)
    && (forall k :: k in after && k !in LoadedKeys(fs, done) ==> after[k] == before[k])
    && (forall k :: k in LoadedKeys(fs, done) ==>
          exists p :: p in done && Supplies(fs, p, k) && after[k] == ReadText(fs, p).value)
  }

  /** What `_load_agents_data(root)` leaves in `agents_data`: nothing new
      when the library is not a directory. */
  predicate Reloaded(before: map<string, string>, after: map<string, string>, fs: FileSystem, root: Path)
  {
    if root !in fs.dirs then after == before
    else LoadedFrom(before, after, fs, MarkdownMatches(fs, root))
  }

  /** The keys one more entry adds: its own, when it reads. */
  lemma LoadedKeysStep(fs: FileSystem, done: set<Path>, p: Path)
    requires p != []
    ensures ReadText(fs, p).None? ==> LoadedKeys(fs, done + {p}) == LoadedKeys(fs, done)
    ensures ReadText(fs, p).Some? ==> LoadedKeys(fs, done + {p}) == LoadedKeys(fs, done) + {DocKey(Last(p))}
  {
  }

  /** The witnesses of `LoadedFrom` stay witnesses when more entries are
      done. */
  lemma SuppliedStill(before: map<string, string>, mid: map<string, string>,
                      fs: FileSystem, done: set<Path>, p: Path)
    requires LoadedFrom(before, mid, fs, done)
    ensures forall k :: k in LoadedKeys(fs, done) ==>
      exists q :: q in done + {p} && Supplies(fs, q, k) && mid[k] == ReadText(fs, q).value
  {
    forall k | k in LoadedKeys(fs, done)
      ensures exists q :: q in done + {p} && Supplies(fs, q, k) && mid[k] == ReadText(fs, q).value
    {
      var q :| q in done && Supplies(fs, q, k) && mid[k] == ReadText(fs, q).value;
      assert q in done + {p};
    }
  }

  /** Loading one more entry keeps `LoadedFrom`. */
  lemma LoadedFromStep(before: map<string, string>, mid: map<string, string>,
                       fs: FileSystem, done: set<Path>, p: Path)
    requires LoadedFrom(before, mid, fs, done) && p != []
    ensures ReadText(fs, p).None? ==> LoadedFrom(before, mid, fs, done + {p})
    ensures ReadText(fs, p).Some? ==>
      LoadedFrom(before, mid[DocKey(Last(p)) := ReadText(fs, p).value], fs, done + {p})
  {
    LoadedKeysStep(fs, done, p);
    SuppliedStill(before, mid, fs, done, p);
    if ReadText(fs, p).Some? {
      LoadedFromAdd(before, mid, fs, done, p);
    }
  }

  lemma LoadedFromAdd(before: map<string, string>, mid: map<string, string>,
                      fs: FileSystem, done: set<Path>, p: Path)
    requires LoadedFrom(before, mid, fs, done) && p != [] && ReadText(fs, p).Some?
    requires LoadedKeys(fs, done + {p}) == LoadedKeys(fs, done) + {DocKey(Last(p))}
    requires forall k :: k in LoadedKeys(fs, done) ==>
      exists q :: q in done + {p} && Supplies(fs, q, k) && mid[k] == ReadText(fs, q).value
    ensures LoadedFrom(before, mid[DocKey(Last(p)) := ReadText(fs, p).value], fs, done + {p})
  {
    var k0 := DocKey(Last(p));
    var after := mid[k0 := ReadText(fs, p).value];
    var old_keys := LoadedKeys(fs, done);
    UnchangedAdd(before, mid, old_keys, k0, ReadText(fs, p).value);
    SuppliedAdd(mid, fs, done, p, k0, after);
  }

  /** Setting one key that joins the loaded keys leaves the other keys as
      they were. */
  lemma UnchangedAdd(before: map<string, string>, mid: map<string, string>,
                     keys: set<string>, k0: string, text: string)
    requires mid.Keys == before.Keys + keys
    requires forall k :: k in mid && k !in keys ==> mid[k] == before[k]
    ensures mid[k0 := text].Keys == before.Keys + (keys + {k0})
    ensures forall k :: k in mid[k0 := text] && k !in keys + {k0} ==> mid[k0 := text][k] == before[k]
  {
  }

  lemma SuppliedAdd(mid: map<string, string>, fs: FileSystem, done: set<Path>, p: Path,
                    k0: string, after: map<string, string>)
    requires p != [] && ReadText(fs, p).Some? && k0 == DocKey(Last(p))
    requires LoadedKeys(fs, done) <= mid.Keys
    requires after == mid[k0 := ReadText(fs, p).value]
    requires forall k :: k in LoadedKeys(fs, done) ==>
      exists q :: q in done + {p} && Supplies(fs, q, k) && mid[k] == ReadText(fs, q).value
    ensures forall k :: k in LoadedKeys(fs, done) + {k0} ==>
      exists q :: q in done + {p} && Supplies(fs, q, k) && after[k] == ReadText(fs, q).value
  {
    forall k | k in LoadedKeys(fs, done) + {k0}
      ensures exists q :: q in done + {p} && Supplies(fs, q, k) && after[k] == ReadText(fs, q).value
    {
      if k == k0 {
        assert Supplies(fs, p, k0) && p in done + {p};
      } else {
        var q :| q in done + {p} && Supplies(fs, q, k) && mid[k] == ReadText(fs, q).value;
      }
    }
  }

  /** When no other readable match is stored under the same key, a reload
      holds exactly the text of the file. */
  lemma ReloadDetermined(before: map<string, string>, after: map<string, string>,
                         fs: FileSystem, root: Path, p: Path)
    requires Reloaded(before, after, fs, root) && root in fs.dirs
    requires p in MarkdownMatches(fs, root) && ReadText(fs, p).Some?
    requires forall q :: q in MarkdownMatches(fs, root) && q != p && Supplies(fs, q, DocKey(Last(p))) ==> false
    ensures DocKey(Last(p)) in after && after[DocKey(Last(p))] == ReadText(fs, p).value
  {
    var matches := MarkdownMatches(fs, root);
    var k := DocKey(Last(p));
    assert k in LoadedKeys(fs, matches);
    var q :| q in matches && Supplies(fs, q, k) && after[k] == ReadText(fs, q).value;
    assert q == p;
  }

  /** A file named `base + ".agents.md"` is served as `base` when `base`
      holds no ".agents" of its own. */
  lemma DocKeyOfPlainName(base: string)
    requires NoAgentsIn(base)
    ensures DocKey(base + AgentsSuffix) == base
  {
    var name := base + AgentsSuffix;
    assert name[|name| - 3..] == ".md";
    StemOfSuffix(name, ".md");
    assert Stem(name) == base + ".agents" + [];
    RemoveAgentsAfter(base, []);
  }

  /** `base + ".agents.agents.md"` is served under `base` as well, so the
      two files compete for one key and the order of the glob decides. */
  lemma KeyCollision(base: string)
    requires NoAgentsIn(base)
    ensures DocKey(base + ".agents" + AgentsSuffix) == base
    ensures DocKey(base + AgentsSuffix) == base
  {
    DocKeyOfPlainName(base);
    var name := base + ".agents" + AgentsSuffix;
    assert name[|name| - 3..] == ".md";
    StemOfSuffix(name, ".md");
    assert Stem(name) == base + ".agents" + ".agents";
    RemoveAgentsAfter(base, ".agents");
    assert RemoveAll(".agents", ".agents") == [] by {
      var s := ".agents";
      assert s[..7] == ".agents" && s[7..] == [];
    }
  }

  // ---------------------------------------------------------------------------
  // The read tools
  // ---------------------------------------------------------------------------

  datatype Instructions = Instructions(content: string, contentType: string)

  function NotFound(name: string): Failure
  {
    HttpError(404, "AGENTS.md file '" + name + "' not found.")
  }

  /** `get_agents_instructions(name)`. */
  function GetAgentsInstructions(docs: map<string, string>, name: string): (r: Result<Instructions>)
    ensures r.Ok? <==> name in docs
    ensures r.Ok? ==> r.value.content == docs[name] && r.value.contentType == MarkdownType
    ensures r.Err? ==> r.error == NotFound(name)
  {
    if name in docs then Ok(Instructions(docs[name], MarkdownType)) else Err(NotFound(name))
  }

  /** `list_agents_instructions()`: the names held, ascending. */
  function ListAgentsInstructions(docs: map<string, string>): (r: seq<string>)
    ensures StrictlySorted(r)
    ensures forall k :: k in r <==> k in docs
  {
    SortedList(docs.Keys)
  }

  /** Every listed name can be fetched, every other name is not found, and
      the list is the only ascending list of the names held. */
  lemma ListedAreFetchable(docs: map<string, string>, names: seq<string>)
    requires StrictlySorted(names) && forall k :: k in names <==> k in docs
    ensures names == ListAgentsInstructions(docs)
    ensures forall k :: k in names ==> GetAgentsInstructions(docs, k).Ok?
    ensures forall k :: k !in names ==> GetAgentsInstructions(docs, k) == Err(NotFound(k))
  {
    SortedUnique(names, ListAgentsInstructions(docs));
  }

  // ---------------------------------------------------------------------------
  // Updating a file
  // ---------------------------------------------------------------------------

  function Updated(fileName: string): string
  {
    "Successfully updated '" + fileName + "'."
  }

  function UpdateFailed(fileName: string, reason: string): Failure
  {
    ToolError("Error updating file '" + fileName + "': " + reason)
  }

  /** `str()` of the OSError `write_text` raises when the target cannot be
      written: its directory is missing or is a file, or the target is a
      directory. */
  function WriteError(fs: FileSystem, t: Path): string
  {
    var shown := "'" + Render(t) + "'";
    if Parent(t) in fs.dirs then "[Errno 21] Is a directory: " + shown
    else if Parent(t) in fs.files then "[Errno 20] Not a directory: " + shown
    else "[Errno 2] No such file or directory: " + shown
  }

  /** The library path the server starts with: the environment's, or the
      default. */
  function LibraryPath(env: map<string, string>): string
  {
    if LibraryVariable in env then env[LibraryVariable] else DefaultLibrary
  }

  /** The server: the instructions held, the script resources registered,
      and the file system both are loaded from. */
  class AgentsServer {
    /** `agents_data`: file key to text. */
    var docs: map<string, string>
    /** The script resources registered, by URI. */
    var resources: map<string, ScriptResource>
    var fs: FileSystem
    /** The directory relative paths resolve against. */
    const cwd: Path
    /** `AGENTS_LIBRARY_PATH` as the configuration gives it: the library
        updates write into and reload from. */
    const library: string

    constructor (cwd: Path, library: string, fs: FileSystem)
      requires Canonical(cwd)
      ensures this.cwd == cwd && this.library == library && this.fs == fs
      ensures docs == map[] && resources == map[]
    {
      this.cwd := cwd;
      this.library := library;
      this.fs := fs;
      docs := map[];
      resources := map[];
    }

    /** `_load_agents_data(libraryPath)`. */
    method LoadAgentsData(libraryPath: string)
      requires Canonical(cwd)
      modifies this`docs
      ensures Reloaded(old(docs), docs, fs, Resolve(cwd, libraryPath))
    {
      var root := Resolve(cwd, libraryPath);
      if root !in fs.dirs {
        return;
      }
      var matches := MarkdownMatches(fs, root);
      var pending := matches;
      while pending != {}
        invariant pending <= matches
        invariant LoadedFrom(old(docs), docs, fs, matches - pending)
        decreases pending
      {
        var p :| p in pending;
        LoadedFromStep(old(docs), docs, fs, matches - pending, p);
        var read := ReadText(fs, p);
        if read.Some? {
          docs := docs[DocKey(Last(p)) := read.value];
        }
        DoneGrows(matches, pending, p);
        pending := pending - {p};
      }
    }

    /** `_load_bash_scripts(libraryPath)`: each script registers under its
        URI unless that URI is taken. */
    method LoadBashScripts(libraryPath: string)
      requires Canonical(cwd)
      modifies this`resources
      ensures ScriptsLoaded(old(resources), resources, fs, Resolve(cwd, libraryPath), libraryPath)
    {
      var root := Resolve(cwd, libraryPath);
      if root !in fs.dirs {
        return;
      }
      var entries := fs.files.Keys + fs.dirs;
      var pending := set p | p in entries && ScriptFile(fs, root, p);
      assert RegisteredFrom(old(resources), resources, fs, root, libraryPath, entries - pending) by {
        assert ScriptUris(fs, root, entries - pending) == {};
      }
      while pending != {}
        invariant pending <= entries
        invariant forall p :: p in pending ==> ScriptFile(fs, root, p)
        invariant RegisteredFrom(old(resources), resources, fs, root, libraryPath, entries - pending)
        decreases pending
      {
        var p :| p in pending;
        RegisteredStep(old(resources), resources, fs, root, libraryPath, entries - pending, p);
        var uri := ScriptUri(Last(p));
        if uri !in resources {
          resources := resources[uri := ScriptResourceFor(libraryPath, Last(p))];
        }
        DoneGrows(entries, pending, p);
        pending := pending - {p};
      }
      assert entries - pending == fs.files.Keys + fs.dirs;
    }

    /** `update_agents_file(fileName, newContent)`: the gate, the write, and
        the reload from the configured library. The gate is the server's,
        with no separator after the directory, so a name such as
        "../markdown_evil.agents.md" is written beside the markdown
        directory (`SiblingDirectoryAccepted`); `ContainedGate` is the
        corrected gate. */
    method UpdateAgentsFile(fileName: string, newContent: string) returns (r: Result<string>)
      requires Canonical(cwd)
      modifies this`fs, this`docs
      ensures var gate := Gate(cwd, library, fileName);
        gate.Err? ==> r == Err(gate.error) && fs == old(fs) && docs == old(docs)
      ensures var gate := Gate(cwd, library, fileName);
        gate.Ok? && !old(fs).CanWrite(gate.value) ==>
          && r == Err(UpdateFailed(fileName, WriteError(old(fs), gate.value)))
          && fs == old(fs) && docs == old(docs)
      ensures var gate := Gate(cwd, library, fileName);
        gate.Ok? && old(fs).CanWrite(gate.value) ==>
          && r == Ok(Updated(fileName))
          && fs == old(fs).Write(gate.value, newContent)
          && Reloaded(old(docs), docs, fs, Resolve(cwd, library))
    {
      var gate := Gate(cwd, library, fileName);
      if gate.Err? {
        return Err(gate.error);
      }
      var target := gate.value;
      if !fs.CanWrite(target) {
        return Err(UpdateFailed(fileName, WriteError(fs, target)));
      }
      fs := fs.Write(target, newContent);
      LoadAgentsData(library);
      r := Ok(Updated(fileName));
    }

    /** The start of the server's lifespan: both loaders run on the library
        the environment names. */
    method Startup(env: map<string, string>)
      requires Canonical(cwd)
      modifies this`docs, this`resources
      ensures var path := LibraryPath(env);
        && Reloaded(old(docs), docs, fs, Resolve(cwd, path))
        && ScriptsLoaded(old(resources), resources, fs, Resolve(cwd, path), path)
    {
      var path := LibraryPath(env);
      LoadAgentsData(path);
      LoadBashScripts(path);
    }
  }

  /** Taking one entry out of the pending set adds it to the done set. */
  lemma DoneGrows<T>(all: set<T>, pending: set<T>, p: T)
    requires p in pending && pending <= all
    ensures (all - pending) + {p} == all - (pending - {p})
  {
  }

  /** After a successful update of a plain file name whose key no other
      markdown file supplies, fetching that key returns the new content as
      the reload reads it back: line endings translated, and so verbatim
      when the content holds no carriage return. */
  lemma UpdateThenGet(cwd: Path, library: string, fileName: string, content: string,
                      fs: FileSystem, before: map<string, string>, after: map<string, string>)
    requires Canonical(cwd)
    requires '/' !in fileName && EndsWith(fileName, AgentsSuffix)
    requires Resolve(cwd, library) in fs.dirs
    requires Gate(cwd, library, fileName).Ok? && fs.CanWrite(Gate(cwd, library, fileName).value)
    requires var fs' := fs.Write(Gate(cwd, library, fileName).value, content);
      && Reloaded(before, after, fs', Resolve(cwd, library))
      && forall q :: (q in MarkdownMatches(fs', Resolve(cwd, library)) && q != Gate(cwd, library, fileName).value
                       && Supplies(fs', q, DocKey(fileName))) ==> false
    ensures GetAgentsInstructions(after, DocKey(fileName)) == Ok(Instructions(TranslateNewlines(content), MarkdownType))
    ensures '\r' !in content ==> GetAgentsInstructions(after, DocKey(fileName)) == Ok(Instructions(content, MarkdownType))
  {
    var root := Resolve(cwd, library);
    PlainNameAccepted(cwd, library, fileName);
    var t := Gate(cwd, library, fileName).value;
    assert t == root + ["markdown", fileName];
    var fs' := fs.Write(t, content);
    assert Last(t) == fileName;
    assert GlobMatch(root, t, "markdown", AgentsSuffix);
    assert t in MarkdownMatches(fs', root);
    assert ReadText(fs', t) == Some(TranslateNewlines(content));
    ReloadDetermined(before, after, fs', root, t);
    if '\r' !in content {
      NoCarriageReturnUnchanged(content);
    }
  }
}
