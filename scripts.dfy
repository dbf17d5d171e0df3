/** Bash scripts as MCP resources: how a script file is named and registered,
    how a call's arguments become the command line, and how the outcome of
    the process becomes the reply. Spawning and waiting are not modelled:
    the outcome of a run is an input. */
module Scripts {
  import opened Outcomes
  import opened Text
  import opened PyValues
  import opened Paths

  const ScriptTimeoutName := "script_timeout"
  const DefaultTimeout := 60

  // ---------------------------------------------------------------------------
  // Names and registration
  // ---------------------------------------------------------------------------

  /** The resource `_load_bash_scripts` builds for one script file. */
  datatype ScriptResource = ScriptResource(
    uri: string,
    name: string,
    description: string,
    mimeType: string,
    scriptPath: string)

  const ScriptScheme := "resource://scripts/"

  /** The URI a script is registered under: the scheme, then the stem of its
      file name, which can be read back from the URI. */
  function ScriptUri(fileName: string): (r: string)
    ensures StartsWith(r, ScriptScheme) && r[|ScriptScheme|..] == Stem(fileName)
  {
    ScriptScheme + Stem(fileName)
  }

  /** The resource for the file `fileName` found under `library + "/bash"`;
      the command runs `str()` of the path the glob produced. */
  function ScriptResourceFor(library: string, fileName: string): (r: ScriptResource)
    ensures r.uri == ScriptUri(fileName) && r.name == Stem(fileName)
  {
    var stem := Stem(fileName);
    ScriptResource(
      "resource://scripts/" + stem,
      stem,
      "Executes the " + stem + ".sh script and returns its output.",
      "text/plain",
      PureString(JoinPath(JoinPath(library, "bash"), fileName)))
  }

  /** The entries `root.glob()` yields for the pattern of the bash scripts:
      any entry, file or directory, directly inside `root/bash` whose name
      ends with ".sh". */
  predicate ScriptFile(fs: FileSystem, root: Path, p: Path)
  {
    (p in fs.files || p in fs.dirs) && GlobMatch(root, p, "bash", ".sh")
  }

  /** The URIs the script files under `root` register. */
  function ScriptUris(fs: FileSystem, root: Path, files: set<Path>): set<string>
  {
    set p | p in files && ScriptFile(fs, root, p) :: ScriptUri(Last(p))
  }

  /** `after` is `before` with the scripts among `files` added: an existing
      URI keeps its first registration, a new one is the resource of some
      script file carrying that URI. */
  predicate RegisteredFrom(before: map<string, ScriptResource>, after: map<string, ScriptResource>,
                           fs: FileSystem, root: Path, library: string, files: set<Path>)
  {
    && after.Keys == before.Keys + ScriptUris(fs, root, files)
    && (forall u :: u in before ==> after[u] == before[u])
    && FromScripts(before, after, fs, root, library, files)
  }

  /** What `_load_bash_scripts(library)` leaves in the registry: nothing new
      when the library is not a directory. */
  predicate ScriptsLoaded(before: map<string, ScriptResource>, after: map<string, ScriptResource>,
                          fs: FileSystem, root: Path, library: string)
  {
    if root !in fs.dirs then after == before
    else RegisteredFrom(before, after, fs, root, library, fs.files.Keys + fs.dirs)
  }

  /** Registering one more script file keeps `RegisteredFrom`: its URI is
      added unless it is already there. */
  lemma RegisteredStep(before: map<string, ScriptResource>, mid: map<string, ScriptResource>,
                       fs: FileSystem, root: Path, library: string, done: set<Path>, p: Path)
    requires RegisteredFrom(before, mid, fs, root, library, done) && ScriptFile(fs, root, p)
    ensures p != []
    ensures var u := ScriptUri(Last(p));
      RegisteredFrom(before, if u in mid then mid else mid[u := ScriptResourceFor(library, Last(p))],
                     fs, root, library, done + {p})
  {
    var u := ScriptUri(Last(p));
    ScriptUrisStep(fs, root, done, p);
    if u !in mid {
      RegisteredAdd(before, mid, fs, root, library, done, p);
    } else {
      RegisteredWiden(before, mid, fs, root, library, done, p);
    }
  }

  lemma ScriptUrisStep(fs: FileSystem, root: Path, done: set<Path>, p: Path)
    requires ScriptFile(fs, root, p)
    ensures p != []
    ensures ScriptUris(fs, root, done + {p}) == ScriptUris(fs, root, done) + {ScriptUri(Last(p))}
  {
  }

  /** The new registrations of `after` each come from a script file among
      `files`. */
  predicate FromScripts(before: map<string, ScriptResource>, after: map<string, ScriptResource>,
                        fs: FileSystem, root: Path, library: string, files: set<Path>)
  {
    forall u :: u in after && u !in before ==>
      exists p :: p in files && ScriptFile(fs, root, p) && ScriptUri(Last(p)) == u
               && after[u] == ScriptResourceFor(library, Last(p))
  }

  /** Old registrations keep their witnesses among more files. */
  lemma RegisteredWiden(before: map<string, ScriptResource>, mid: map<string, ScriptResource>,
                        fs: FileSystem, root: Path, library: string, done: set<Path>, p: Path)
    requires RegisteredFrom(before, mid, fs, root, library, done) && ScriptFile(fs, root, p)
    requires ScriptUri(Last(p)) in mid
    requires ScriptUris(fs, root, done + {p}) == ScriptUris(fs, root, done) + {ScriptUri(Last(p))}
    ensures RegisteredFrom(before, mid, fs, root, library, done + {p})
  {
    FromScriptsWiden(before, mid, fs, root, library, done, p);
    KeysGrow(mid.Keys, before.Keys, ScriptUris(fs, root, done), ScriptUris(fs, root, done + {p}), ScriptUri(Last(p)));
  }

  /** Set algebra for one more URI, kept apart from the URIs' definitions. */
  lemma KeysGrow(keys: set<string>, old_keys: set<string>, uris: set<string>, uris': set<string>, u: string)
    requires keys == old_keys + uris && uris' == uris + {u}
    ensures u in keys ==> keys == old_keys + uris'
    ensures keys + {u} == old_keys + uris'
  {
  }

  lemma FromScriptsWiden(before: map<string, ScriptResource>, after: map<string, ScriptResource>,
                         fs: FileSystem, root: Path, library: string, done: set<Path>, p: Path)
    requires FromScripts(before, after, fs, root, library, done)
    ensures FromScripts(before, after, fs, root, library, done + {p})
  {
    forall v | v in after && v !in before
      ensures exists q :: q in done + {p} && ScriptFile(fs, root, q) && ScriptUri(Last(q)) == v
                        && after[v] == ScriptResourceFor(library, Last(q))
    {
      var q :| q in done && ScriptFile(fs, root, q) && ScriptUri(Last(q)) == v
             && after[v] == ScriptResourceFor(library, Last(q));
      assert q in done + {p};
    }
  }

  /** A new URI is registered with the resource of the file that brings it. */
  lemma RegisteredAdd(before: map<string, ScriptResource>, mid: map<string, ScriptResource>,
                      fs: FileSystem, root: Path, library: string, done: set<Path>, p: Path)
    requires RegisteredFrom(before, mid, fs, root, library, done) && ScriptFile(fs, root, p)
    requires ScriptUri(Last(p)) !in mid
    requires ScriptUris(fs, root, done + {p}) == ScriptUris(fs, root, done) + {ScriptUri(Last(p))}
    ensures RegisteredFrom(before, mid[ScriptUri(Last(p)) := ScriptResourceFor(library, Last(p))],
                           fs, root, library, done + {p})
  {
    var u := ScriptUri(Last(p));
    var after := mid[u := ScriptResourceFor(library, Last(p))];
    FromScriptsAdd(before, mid, fs, root, library, done, p, u, after);
    KeysGrow(mid.Keys, before.Keys, ScriptUris(fs, root, done), ScriptUris(fs, root, done + {p}), u);
    KeepOld(before, mid, u, ScriptResourceFor(library, Last(p)));
  }

  /** Adding a key that is not there keeps the old entries. */
  lemma KeepOld(before: map<string, ScriptResource>, mid: map<string, ScriptResource>, u: string, v: ScriptResource)
    requires u !in mid && forall w :: w in before ==> w in mid && mid[w] == before[w]
    ensures (mid[u := v]).Keys == mid.Keys + {u}
    ensures forall w :: w in before ==> mid[u := v][w] == before[w]
  {
  }

  lemma FromScriptsAdd(before: map<string, ScriptResource>, mid: map<string, ScriptResource>,
                       fs: FileSystem, root: Path, library: string, done: set<Path>, p: Path,
                       u: string, after: map<string, ScriptResource>)
    requires FromScripts(before, mid, fs, root, library, done) && ScriptFile(fs, root, p)
    requires u == ScriptUri(Last(p)) && after == mid[u := ScriptResourceFor(library, Last(p))]
    ensures FromScripts(before, after, fs, root, library, done + {p})
  {
    forall v | v in after && v !in before
      ensures exists q :: q in done + {p} && ScriptFile(fs, root, q) && ScriptUri(Last(q)) == v
                        && after[v] == ScriptResourceFor(library, Last(q))
    {
      if v == u {
        assert p in done + {p};
      } else {
        var q :| q in done && ScriptFile(fs, root, q) && ScriptUri(Last(q)) == v
               && mid[v] == ScriptResourceFor(library, Last(q));
        assert q in done + {p};
      }
    }
  }

  /** A script file whose URI no other script file and no earlier
      registration holds ends up registered with its own resource. */
  lemma RegistrationDetermined(before: map<string, ScriptResource>, after: map<string, ScriptResource>,
                               fs: FileSystem, root: Path, library: string, p: Path)
    requires ScriptsLoaded(before, after, fs, root, library) && root in fs.dirs
    requires ScriptFile(fs, root, p)
    requires ScriptUri(Last(p)) !in before
    requires forall q :: ScriptFile(fs, root, q) && q != p && ScriptUri(Last(q)) == ScriptUri(Last(p)) ==> false
    ensures ScriptUri(Last(p)) in after
    ensures after[ScriptUri(Last(p))] == ScriptResourceFor(library, Last(p))
  {
    var u := ScriptUri(Last(p));
    assert p in fs.files.Keys + fs.dirs;
    assert u in ScriptUris(fs, root, fs.files.Keys + fs.dirs);
    var q :| q in fs.files.Keys + fs.dirs && ScriptFile(fs, root, q) && ScriptUri(Last(q)) == u
           && after[u] == ScriptResourceFor(library, Last(q));
    assert q == p;
  }

  /** A script named `base + ".sh"` registers under `base`, whatever dots
      `base` holds. */
  lemma ScriptStem(base: string)
    requires base != []
    ensures Stem(base + ".sh") == base
    ensures ScriptUri(base + ".sh") == "resource://scripts/" + base
  {
    var name := base + ".sh";
    assert name[|name| - 3..] == ".sh";
    StemOfSuffix(name, ".sh");
    assert name[..|name| - 3] == base;
  }

  /** Distinct scripts with non-empty base names have distinct URIs. */
  lemma ScriptUriInjective(a: string, b: string)
    requires a != [] && b != []
    requires ScriptUri(a + ".sh") == ScriptUri(b + ".sh")
    ensures a == b
  {
    ScriptStem(a);
    ScriptStem(b);
    var p := "resource://scripts/";
    assert (p + a)[|p|..] == a && (p + b)[|p|..] == b;
  }

  /** ".sh" and ".sh.sh" register under the same URI, so only the first of
      them the glob yields is kept. */
  lemma ScriptUriCollision(x: string, y: string)
    requires x == ".sh" && y == ".sh.sh"
    ensures ScriptUri(x) == ScriptUri(y) == "resource://scripts/.sh"
  {
    assert LastIndexOf(x, '.') == 0 by {
      assert x[0] == '.' && x[1] != '.' && x[2] != '.';
    }
    ScriptStem(x);
    assert y == x + ".sh";
  }

  // ---------------------------------------------------------------------------
  // Calling a script
  // ---------------------------------------------------------------------------

  /** The arguments `_run_script(script_timeout=60, **kwargs)` receives. */
  datatype Call = Call(timeout: Value, kwargs: seq<(string, Value)>)

  /** Keyword arguments, as a Python call has them: no name twice. */
  predicate DistinctKeys(args: seq<(string, Value)>)
  {
    forall i, j :: 0 <= i < j < |args| ==> args[i].0 != args[j].0
  }

  /** Python's binding of keyword arguments to `_run_script`'s parameters:
      `script_timeout` goes to its own parameter (60 when absent), the rest
      to `**kwargs` in the order given. */
  function Bind(args: seq<(string, Value)>): (c: Call)
    ensures forall i :: 0 <= i < |c.kwargs| ==> c.kwargs[i].0 != ScriptTimeoutName
  {
    if args == [] then Call(VInt(DefaultTimeout), [])
    else
      var c := Bind(args[1..]);
      if args[0].0 == ScriptTimeoutName then Call(args[0].1, c.kwargs)
      else Call(c.timeout, [args[0]] + c.kwargs)
  }

  /** The keyword arguments that reach `**kwargs` are exactly those not
      named `script_timeout`. */
  lemma {:induction false} BindKeeps(args: seq<(string, Value)>)
    ensures forall p :: p in Bind(args).kwargs <==> p in args && p.0 != ScriptTimeoutName
  {
    if args != [] {
      var rest := args[1..];
      BindKeeps(rest);
      assert forall p :: p in args <==> p == args[0] || p in rest;
    }
  }

  /** With no `script_timeout` argument, every argument reaches `**kwargs`,
      in order, and the timeout is 60. */
  lemma {:induction false} BindWithoutTimeout(args: seq<(string, Value)>)
    requires forall i :: 0 <= i < |args| ==> args[i].0 != ScriptTimeoutName
    ensures Bind(args) == Call(VInt(DefaultTimeout), args)
  {
    if args != [] {
      var rest := args[1..];
      assert forall j :: 0 <= j < |rest| ==> rest[j] == args[j + 1];
      BindWithoutTimeout(rest);
      assert args == [args[0]] + rest;
    }
  }

  /** Binding takes out exactly the `script_timeout` argument and keeps the
      order of the others. */
  lemma {:induction false} BindWithTimeout(args: seq<(string, Value)>, i: nat)
    requires DistinctKeys(args)
    requires i < |args| && args[i].0 == ScriptTimeoutName
    ensures Bind(args) == Call(args[i].1, args[..i] + args[i + 1..])
    decreases i
  {
    var rest := args[1..];
    DistinctTail(args);
    if i == 0 {
      BindWithoutTimeout(rest);
    } else {
      assert rest[i - 1] == args[i];
      BindWithTimeout(rest, i - 1);
      assert args[0].0 != ScriptTimeoutName;
      assert args[..i] + args[i + 1..] == [args[0]] + (rest[..i - 1] + rest[i..]);
    }
  }

  /** The arguments after the first have distinct names, none of them the
      first one's. */
  lemma DistinctTail(args: seq<(string, Value)>)
    requires DistinctKeys(args) && args != []
    ensures DistinctKeys(args[1..])
    ensures forall j :: 0 <= j < |args[1..]| ==> args[1..][j].0 != args[0].0
  {
    var rest := args[1..];
    forall j | 0 <= j < |rest| ensures rest[j].0 != args[0].0 {
      assert rest[j] == args[j + 1];
    }
    forall j, k | 0 <= j < k < |rest| ensures rest[j].0 != rest[k].0 {
      assert rest[j] == args[j + 1] && rest[k] == args[k + 1];
    }
  }

  /** The `--key value` pairs of the command line, in order: each keyword
      argument takes two places, its flag and then its value. */
  function Flags(kwargs: seq<(string, Value)>): (r: seq<string>)
    ensures |r| == 2 * |kwargs|
    ensures forall i :: 0 <= i < |kwargs| ==> r[2 * i] == "--" + kwargs[i].0 && r[2 * i + 1] == PyStr(kwargs[i].1)
  {
    if kwargs == [] then []
    else
      var n := |kwargs| - 1;
      Flags(kwargs[..n]) + ["--" + kwargs[n].0, PyStr(kwargs[n].1)]
  }

  /** `command_args` as `_run_script` builds it. */
  method BuildCommand(scriptPath: string, kwargs: seq<(string, Value)>) returns (argv: seq<string>)
    ensures argv == ["bash", scriptPath] + Flags(kwargs)
  {
    argv := ["bash", scriptPath];
    for i := 0 to |kwargs|
      invariant argv == ["bash", scriptPath] + Flags(kwargs[..i])
    {
      assert kwargs[..i + 1][..i] == kwargs[..i];
      argv := argv + ["--" + kwargs[i].0];
      argv := argv + [PyStr(kwargs[i].1)];
    }
    assert kwargs[..|kwargs|] == kwargs;
  }

  /** The command line has two places per keyword argument after
      `bash <path>`, and no flag on it names the timeout. */
  lemma TimeoutNeverPassed(scriptPath: string, args: seq<(string, Value)>)
    ensures var kwargs := Bind(args).kwargs;
            var argv := ["bash", scriptPath] + Flags(kwargs);
            && |argv| == 2 + 2 * |kwargs|
            && forall i :: 0 <= i < |kwargs| ==> argv[2 + 2 * i] != "--" + ScriptTimeoutName
  {
    var kwargs := Bind(args).kwargs;
    NoTimeoutFlag(scriptPath, kwargs, Flags(kwargs));
  }

  lemma NoTimeoutFlag(scriptPath: string, kwargs: seq<(string, Value)>, flags: seq<string>)
    requires forall i :: 0 <= i < |kwargs| ==> kwargs[i].0 != ScriptTimeoutName
    requires |flags| == 2 * |kwargs|
    requires forall i :: 0 <= i < |kwargs| ==> flags[2 * i] == "--" + kwargs[i].0
    ensures var argv := ["bash", scriptPath] + flags;
            && |argv| == 2 + 2 * |kwargs|
            && forall i :: 0 <= i < |kwargs| ==> argv[2 + 2 * i] != "--" + ScriptTimeoutName
  {
    var argv := ["bash", scriptPath] + flags;
    forall i | 0 <= i < |kwargs| ensures argv[2 + 2 * i] != "--" + ScriptTimeoutName {
      var a, b := "--" + kwargs[i].0, "--" + ScriptTimeoutName;
      assert argv[2 + 2 * i] == flags[2 * i] == a;
      assert a[2..] == kwargs[i].0 && b[2..] == ScriptTimeoutName;
    }
  }

  // ---------------------------------------------------------------------------
  // The outcome of a run
  // ---------------------------------------------------------------------------

  /** How the process ended: with an exit code and its decoded output, or by
      running past the timeout. */
  datatype ProcessOutcome = Exited(returnCode: int, stdout: string, stderr: string) | TimedOut

  datatype ProcessAction = Kill | Wait

  /** What `_run_script` does to the process after `communicate()`, and what
      it returns or raises. */
  datatype RunReply = RunReply(actions: seq<ProcessAction>, result: Result<string>)

  function Classify(outcome: ProcessOutcome, timeout: Value): (r: RunReply)
    ensures r.result.Ok? <==> outcome.Exited? && outcome.returnCode == 0
    ensures r.result.Ok? ==> r.result.value == Strip(outcome.stdout) && Strip(r.result.value) == r.result.value
    ensures outcome.Exited? && outcome.returnCode != 0 ==>
      r.result == Err(HttpError(500, "Script execution failed: " + Strip(outcome.stderr)))
    ensures outcome.TimedOut? ==>
      r.result == Err(ResourceError("Script execution timed out after " + PyStr(timeout) + " seconds."))
    ensures r.actions == if outcome.TimedOut? then [Kill, Wait] else []
  {
    match outcome
    case TimedOut =>
      RunReply([Kill, Wait], Err(ResourceError("Script execution timed out after " + PyStr(timeout) + " seconds.")))
    case Exited(code, out, err) =>
      if code != 0 then RunReply([], Err(HttpError(500, "Script execution failed: " + Strip(err))))
      else
        StripIdempotent(out);
        RunReply([], Ok(Strip(out)))
  }

  /** One call of a registered script: the command it runs and the reply the
      given outcome of that command produces. */
  method RunScript(scriptPath: string, args: seq<(string, Value)>, outcome: ProcessOutcome)
    returns (argv: seq<string>, reply: RunReply)
    ensures argv == ["bash", scriptPath] + Flags(Bind(args).kwargs)
    ensures reply == Classify(outcome, Bind(args).timeout)
  {
    var call := Bind(args);
    argv := BuildCommand(scriptPath, call.kwargs);
    reply := Classify(outcome, call.timeout);
  }
}
