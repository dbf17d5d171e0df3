# A verified model of the mcp-server core

The server keeps the AGENTS.md instruction files of an agents library in
memory and serves them as MCP tools: one tool fetches a file by name, one
lists the names, and one updates a file on disk and reloads. It also
registers every bash script of the library as an MCP resource and runs the
script with the call's arguments as `--key value` flags. Around this sit
four small checks:
- the server's API-key header check;
- the key-file check of the security module;
- the override of the YAML configuration from environment variables;
- the conversion of `TextContent` objects in tool results to strings.

The model is written in Dafny, one module per concern:

| module | file | models |
|---|---|---|
| `Outcomes` | outcomes.dfy | `Option`, `Result`, and the exceptions the core raises (`HTTPException`, `ToolError`, `ResourceError`, `TypeError`) |
| `PyValues` | values.dfy | scalar call arguments and Python's `str()` of them |
| `Text` | text.dfy | `str.strip()`, `upper()`, `lower()`, `replace(pat, "")`, `str(int)`, `int(str)` |
| `Paths` | paths.dfy | canonical paths, lexical `resolve()`, `str()` of a path, `stem`, `/`, a file system of files and directories, glob matching |
| `Ordering` | ordering.dfy | Python's string order, and `sorted()` of a set of names |
| `SafeWrite` | safewrite.dfy | the suffix and containment gate of `update_agents_file`, as written (`Gate`) and corrected (`ContainedGate`) |
| `Scripts` | scripts.dfy | script names and URIs, the registration of scripts, binding of `script_timeout`, the command line, the classification of a finished or timed-out run |
| `AgentsStore` | agents_store.dfy | the class `AgentsServer` (`agents_data`, the resource registry, the file system); the loaders; the get, list and update tools; startup |
| `ConfigEnv` | config_env.dfy | `_override_config_with_env`, a loop over a section that recurses into nested sections |
| `ApiKeys` | api_keys.dfy | the server's `get_api_key`; the security module's `get_api_key`, `generate_api_key` and `verify_api_key` |
| `Content` | content.dfy | `convert_text_content_to_str` |

Imperative parts of the source are modelled as methods:
- The loaders are loops over the glob results that update the class's `docs` and `resources` fields.
- The command line grows by appending in a `for` loop.
- The configuration override assigns entries in a loop and recurses into nested sections.
- The update tool writes to the file system field, then calls the loader.

The glob's order is not known, so each loader loop picks its next entry nondeterministically. Each loader is proved against a relational specification, `Reloaded` or `ScriptsLoaded`:
- a key not supplied by any file is left untouched, and nothing is removed;
- each key a file supplies holds the text of some file that supplies it;
- when only one file supplies a key, that key holds exactly that file's text (`ReloadDetermined`, `RegistrationDetermined`).

Behaviour of the code that the model keeps as written:
- **Containment test.** The comments at app/server.py:312-320 say the resolved file must lie within the safe target directory, which needs a path separator after the directory in the string test. The test at app/server.py:321 has none. The server method uses the test as written, and its hole is shown; the corrected test is modelled beside it (see Findings).
- **Script files are not read.** The script loader never opens the script files, so every entry the glob yields registers, empty files and directories named `*.sh` included (`ScriptFile`).
- **Newlines.** The loader reads the markdown files in text mode, so "\r\n" and a lone "\r" come back as "\n"; the update writes its content unchanged. An update whose content holds a carriage return is therefore served with its line endings translated (`ReadText`, `UpdateThenGet`).
- **Reloading.** The loader only inserts and overwrites. A name whose file has been removed stays listed and fetchable after a reload (`LoadedFrom`).
- **Two library paths.** Startup loads from the `AGENTS_LIBRARY_PATH` environment variable, defaulting to `/app/agents-library` (app/server.py:207). The update tool writes into, and reloads from, the configuration's `agents_library_path` (app/server.py:60, 310, 332). `AgentsServer` keeps the second as `library`, and `Startup` takes the environment.

## Model

| member | source | states |
|---|---|---|
| Text.Strip | app/security.py:57 | `strip()` returns a slice of its input with only whitespace cut from either end; it is empty exactly when the input is all whitespace, and otherwise begins and ends with a non-space |
| Text.StripIdempotent | app/server.py:153 | stripping a stripped string changes nothing |
| Text.StripPadded | app/security.py:57 | whitespace padding around a word with non-space ends is exactly what `strip()` removes |
| Text.Upper | app/security.py:19 | `upper()` keeps the length and upper-cases each character |
| Text.UpperConcat | app/security.py:19-21 | upper-casing distributes over concatenation |
| Text.UpperIdempotent | app/security.py:19-21 | upper-casing an upper-cased name changes nothing, so the nested prefix is formed once |
| Text.Lower | app/security.py:28 | `lower()` keeps the length and lower-cases each character |
| Text.RemoveAll | app/server.py:120 | `replace(pat, "")` never lengthens a string |
| Text.RemoveAgentsAfter | app/server.py:120 | removing ".agents" from `base + ".agents" + tail` keeps a `base` without ".agents" whole and removes from `tail` only |
| Text.IntRoundTrip | app/security.py:26 | `int(str(i)) == i` for every integer |
| Text.DecimalIsGroup | app/security.py:26 | a rendered natural number is a valid digit group that `int()` reads back to itself |
| Text.ParseInt | app/security.py:26 | `int()` succeeds only on a stripped text of digits and underscores with at most one leading sign, and a negative result needs the '-' sign |
| Text.NoAgentsRemoved | app/server.py:120 | `replace(".agents", "")` leaves a string without ".agents" unchanged |
| Text.TranslateNewlines | app/server.py:118 | text read in text mode holds no carriage return and is never longer than the file's text |
| Text.NoCarriageReturnUnchanged | app/server.py:118 | text without a carriage return is read back exactly as written |
| Text.TranslateIdempotent | app/server.py:118 | translating line endings of text already read changes nothing |
| Text.CarriageReturnsTranslated | app/server.py:118 | "a\r\nb" and "a\rb" both read back as "a\nb" |
| PyValues.PyStr | app/server.py:139 | `str()` of a string is the string; of an integer, a decimal that `int()` reads back to it; of a boolean or `None`, a non-empty spelling that `int()` refuses |
| Paths.Split | app/server.py:317 | the segments of a path string contain no empty segment and no '/' |
| Paths.SplitJoin | app/server.py:317 | the segments of `a + "/" + b` are those of `a` followed by those of `b` |
| Paths.Walk | app/server.py:317 | resolving a walk from a canonical directory yields a canonical path |
| Paths.WalkAppend | app/server.py:317 | walking two segment lists in turn is walking their concatenation |
| Paths.Resolve | app/server.py:314 | `resolve()` yields a canonical absolute path |
| Paths.ResolveJoin | app/server.py:317 | `(a / b).resolve()` for a relative `b` walks `b`'s segments from `a.resolve()` |
| Paths.JoinPath | app/server.py:317 | `a / b` is `b` when `b` is absolute; otherwise its segments are those of `a` followed by those of `b`, and it is absolute exactly when `a` is |
| Paths.Render | app/server.py:321 | `str()` of a resolved path is an absolute path string |
| Paths.RenderSplit | app/server.py:321 | splitting `str()` of a path gives back its segments |
| Paths.Parent | app/server.py:314 | a parent is its path without the last segment, and the root is its own parent |
| Paths.SeparatedPrefix | app/server.py:321 | a rendered path starts with the directory's rendering plus '/' exactly when the directory is a proper segment prefix of the path |
| Paths.UnseparatedPrefix | app/server.py:321 | a rendered path that starts with the directory's rendering without '/' agrees with the directory up to its last segment, and at that depth has a segment merely beginning with the directory's last |
| Paths.UnseparatedPrefixComplete | app/server.py:321 | conversely, every path of that shape starts with the directory's rendering |
| Paths.LastIndexOf | app/server.py:164 | `rfind` returns the index of the last occurrence, or -1 when there is none |
| Paths.StemOfSuffix | app/server.py:164 | the stem of a name ending in a one-dot suffix is the name without the suffix, unless the suffix is the whole name |
| Paths.Stem | app/server.py:164 | the stem is a prefix of the name; when shorter, it ends just before the name's last '.', which is neither the first nor the last character |
| Paths.SplitEndsWith | app/server.py:305-317 | a path string ending in a slash-free suffix has a last segment ending in that suffix |
| Paths.FileSystem.Write | app/server.py:329 | `write_text` makes the target a readable file holding the new text and changes no other file or directory |
| Ordering.LessTransitive | app/server.py:288 | Python's string order is transitive |
| Ordering.LessTotal | app/server.py:288 | any two distinct strings are ordered one way |
| Ordering.LessAsymmetric | app/server.py:288 | no two strings are each less than the other |
| Ordering.LeastExists | app/server.py:288 | every non-empty set of names has a least element |
| Ordering.SortedList | app/server.py:288 | `sorted()` of a set of names is strictly ascending, as long as the set, and holds exactly its elements |
| Ordering.SortedUnique | app/server.py:288 | two strictly ascending lists of the same names are equal |
| SafeWrite.Gate | app/server.py:305-325 | the gate as written: a name not ending with ".agents.md" gets the 403 suffix error before any resolution, and an accepted name yields its resolved target |
| SafeWrite.GateExact | app/server.py:305-325 | the gate as written accepts exactly the names ending with ".agents.md" whose target lies strictly inside the resolved library under a top directory whose name begins with "markdown" |
| SafeWrite.ContainedGate | app/server.py:305-325 | the corrected gate: same suffix error, and an accepted name yields its resolved target |
| SafeWrite.MarkdownDir | app/server.py:310-314 | the resolved markdown directory is the resolved library plus "markdown" |
| SafeWrite.Target | app/server.py:317 | the target is the name walked from the markdown directory, or from the root for an absolute name |
| SafeWrite.GateConfinesToLibrary | app/server.py:310-325 | whatever the gate as written accepts lies strictly inside the resolved library, in a top directory whose name begins with "markdown", and its file name ends with ".agents.md" |
| SafeWrite.TwoLevelsUpRejected | app/server.py:321-325 | a name climbing two levels to a file not beginning with "markdown" gets the 403 access error, for every library and working directory |
| SafeWrite.TraversalRejected | app/server.py:321-325 | "../../bad_location.agents.md" gets the 403 access error |
| SafeWrite.PlainNameAccepted | app/server.py:310-321 | a slash-free name ending with ".agents.md" is accepted by both gates and targets the markdown directory plus that name |
| SafeWrite.SiblingAccepted | app/server.py:321 | the gate as written accepts "../" plus a name beginning with "markdown" and targets a direct child of the library, outside the markdown directory |
| SafeWrite.SiblingDirectoryAccepted | app/server.py:321 | "../markdown_evil.agents.md" is accepted by the gate as written and targets the library plus that name |
| SafeWrite.ContainedGateExact | app/server.py:321-325 | the corrected gate accepts exactly the names ending with ".agents.md" whose target lies strictly inside the markdown directory |
| SafeWrite.ContainedGateBlocksSibling | app/server.py:321-325 | the corrected gate refuses "../markdown_evil.agents.md" with the 403 access error |
| SafeWrite.ContainedGateNarrows | app/server.py:321-325 | what the corrected gate accepts, the gate as written accepts with the same target; what the gate as written refuses, the corrected gate refuses identically |
| Scripts.ScriptResourceFor | app/server.py:164-172 | a script's resource has URI `resource://scripts/<stem>` and name `<stem>` |
| Scripts.ScriptUri | app/server.py:164-165 | a script's URI is "resource://scripts/" followed by its file's stem, which can be read back from the URI |
| Scripts.ScriptUrisStep | app/server.py:162-165 | one more script file adds exactly its own URI |
| Scripts.RegisteredStep | app/server.py:162-171 | registering one more script adds its resource under its URI unless the URI is taken, keeping every earlier registration |
| Scripts.RegistrationDetermined | app/server.py:162-171 | a script whose URI no other script and no earlier registration holds ends up registered with its own resource |
| Scripts.ScriptStem | app/server.py:164-165 | `base + ".sh"` registers under `base`, whatever dots `base` holds |
| Scripts.ScriptUriInjective | app/server.py:164-165 | distinct non-empty base names give distinct URIs |
| Scripts.ScriptUriCollision | app/server.py:164-167 | ".sh" and ".sh.sh" get the same URI, so only one of them registers |
| Scripts.Bind | app/server.py:133 | no keyword argument that reaches `**kwargs` is named `script_timeout` |
| Scripts.BindKeeps | app/server.py:133 | the arguments reaching `**kwargs` are exactly those not named `script_timeout` |
| Scripts.BindWithoutTimeout | app/server.py:133 | without `script_timeout`, every argument reaches `**kwargs` in order and the timeout is 60 |
| Scripts.BindWithTimeout | app/server.py:133 | with `script_timeout` at position i, it becomes the timeout and the others keep their order |
| Scripts.Flags | app/server.py:137-139 | each keyword argument contributes `--key` then `str(value)`, in order, so the flags are twice as many as the arguments |
| Scripts.BuildCommand | app/server.py:136-139 | the loop builds `["bash", path]` followed by the flags of the keyword arguments |
| Scripts.TimeoutNeverPassed | app/server.py:133-139 | the command line has 2 + 2·n entries for n keyword arguments, and no flag names `script_timeout` |
| Scripts.Classify | app/server.py:146-158 | exit 0 returns stripped stdout; a non-zero exit is a 500 "Script execution failed: " plus stripped stderr; a timeout kills, then waits, then raises the timeout `ResourceError` |
| Scripts.RunScript | app/server.py:133-158 | a call runs the command built from the bound arguments and replies as the outcome classifies |
| AgentsStore.LoadedKeysStep | app/server.py:116-121 | one more markdown entry adds its key when it reads and nothing when its read fails |
| AgentsStore.ReadText | app/server.py:118 | a read succeeds exactly on a readable regular file; its text has no carriage return left, and a file text without one is read verbatim |
| AgentsStore.DocKey | app/server.py:120 | a key is never longer than the file name, and for a stem without ".agents" it is the stem |
| AgentsStore.LoadedFromStep | app/server.py:116-121 | storing one more entry's text under its key keeps the loader's specification |
| AgentsStore.ReloadDetermined | app/server.py:110-121 | a readable match whose key no other match supplies holds exactly that file's text, as `read_text` returns it, after a reload |
| AgentsStore.DocKeyOfPlainName | app/server.py:120 | `base + ".agents.md"` is served as `base` when `base` holds no ".agents" |
| AgentsStore.KeyCollision | app/server.py:120 | `base + ".agents.agents.md"` is served under `base` too, so the two files compete for one key |
| AgentsStore.GetAgentsInstructions | app/server.py:278-280 | a name succeeds exactly when it is held; it returns the stored text verbatim with type "text/markdown"; any other name is the 404 "AGENTS.md file '<name>' not found." |
| AgentsStore.ListAgentsInstructions | app/server.py:288 | the list is strictly ascending and holds exactly the names held |
| AgentsStore.ListedAreFetchable | app/server.py:278-288 | the list is the only ascending list of the names held; every listed name is fetchable, and every other name is not found |
| AgentsStore.AgentsServer.constructor | app/server.py:88 | the server starts with no instructions and no resources |
| AgentsStore.AgentsServer.LoadAgentsData | app/server.py:110-124 | a library that is not a directory changes nothing; otherwise every readable match is stored under its key, other keys are untouched, and nothing is removed |
| AgentsStore.AgentsServer.LoadBashScripts | app/server.py:126-198 | a library that is not a directory changes nothing; otherwise every script entry's URI is registered, earlier registrations are kept, and each new one is the resource of a script carrying that URI |
| AgentsStore.AgentsServer.UpdateAgentsFile | app/server.py:294-336 | a gate error is returned with nothing written or reloaded; a failed write is the `ToolError` "Error updating file '<name>': ..." with nothing changed; otherwise the target holds exactly the new content, the store is reloaded from the configured library, and the reply is "Successfully updated '<name>'."; the gate is the one as written |
| AgentsStore.AgentsServer.Startup | app/server.py:206-209 | both loaders run on the library the environment names, or `/app/agents-library` |
| AgentsStore.UpdateThenGet | app/server.py:327-334 | after a successful update of a plain name whose key no other file supplies, fetching that key returns the new content with its line endings translated as `read_text` does, and so verbatim when it holds no carriage return |
| ConfigEnv.Override | app/security.py:17-42 | the override, as written, keeps every section's keys in order, and a value is a section after it exactly when it was before |
| ConfigEnv.OverrideWithEnv | app/security.py:17-42 | the loop, testing `int` before `bool` and recursing into nested sections, computes the override of the section |
| ConfigEnv.FindKey | app/security.py:18-21 | `d[key]` finds the first entry with that key, or reports that none has it |
| ConfigEnv.LeafOverride | app/security.py:17-36 | the leaf at a key path is replaced, as the code replaces a leaf, from the variable named by the upper-cased key path joined with "_" |
| ConfigEnv.UnsetLeafKept | app/security.py:22 | a leaf whose variable is not set keeps its value |
| ConfigEnv.SectionsKept | app/security.py:20-21 | a key path reaches a value, and a section, after the override exactly when it did before: sections are recursed into, never replaced |
| ConfigEnv.Replace | app/security.py:25-41 | as written: an unset variable keeps the leaf; the result is never a section and never a changed `bool`; a new `int` is what `int()` reads from the variable; a new string is the variable's text, for a leaf that is neither `int` nor `bool` |
| ConfigEnv.IntLeafParsed | app/security.py:25-26 | an `int` leaf takes the number its variable renders |
| ConfigEnv.IntLeafKept | app/security.py:37-41 | an `int` leaf whose variable is anything `int()` refuses keeps its value |
| ConfigEnv.TextLeafReplaced | app/security.py:35-36 | a leaf of any other type takes the variable's text verbatim |
| ConfigEnv.BoolTakesIntPath | app/security.py:25-26 | as written, a `bool` leaf goes through `int()` and becomes the number its variable renders |
| ConfigEnv.OverrideBoolBecomesInt | app/security.py:17-28 | in the routine, a `bool` entry whose variable renders a number becomes that number, an `int` |
| ConfigEnv.OverrideTrueIgnored | app/security.py:17-34 | in the routine, a `false` entry whose variable is "true" stays `false` |
| ConfigEnv.BoolTrueIgnored | app/security.py:25-34 | as written, setting a false `bool` leaf's variable to "true" leaves it false |
| ConfigEnv.IntendedReplace | app/security.py:27-34 | with the `bool` test first, an unset variable keeps the leaf, and every leaf that is not a `bool` is replaced as the code has it |
| ConfigEnv.IntendedKeepsBools | app/security.py:27-34 | with the `bool` test first, a `bool` leaf stays a `bool` and is true exactly when its variable is one of the true spellings, in any letter case |
| ConfigEnv.IntendedTrueSets | app/security.py:27-34 | with the `bool` test first, "TRUE" sets a false flag |
| ApiKeys.ServerGetApiKey | app/server.py:79-84 | a refusal is always the 403 "Invalid or missing API key"; an accepted key is returned unchanged |
| ApiKeys.EnabledAcceptsConfigured | app/server.py:79-81 | with security on, a key passes exactly when it is present, non-empty and configured |
| ApiKeys.EmptyKeyRefused | app/server.py:80 | an empty header is refused even when the empty string is configured |
| ApiKeys.DisabledPassesThrough | app/server.py:82-84 | with security off, the key, or its absence, is returned unchanged |
| ApiKeys.StoredKey | app/security.py:53-57 | a missing key file is the 500 "API key not found. Please generate one."; otherwise the key is the file's text stripped |
| ApiKeys.CompareDigest | app/security.py:70 | `compare_digest` has a result exactly when both strings are ASCII, and it is then true exactly when they are equal; otherwise it is the `TypeError` |
| ApiKeys.VerifyApiKey | app/security.py:67-72 | an accepted key is returned unchanged |
| ApiKeys.VerifyAcceptsExactly | app/security.py:67-72 | a key passes exactly when the key file exists and the key is ASCII and equals its stripped text; a missing file is the 500; a different key is the 401 "Invalid API Key" when both keys are ASCII, and the `TypeError` of `compare_digest` when either is not |
| ApiKeys.StoredKeyVerifies | app/security.py:57-72 | an ASCII key verifies against any file text that strips to it |
| ApiKeys.GenerateApiKey | app/security.py:60-64 | the file holds the returned key, and for a URL-safe token reading the file back yields that key, which is ASCII |
| ApiKeys.UrlSafeKey | app/security.py:62 | a URL-safe token is ASCII and has no surrounding whitespace |
| ApiKeys.GenerateThenVerify | app/security.py:60-72 | a generated key verifies, also when the file has picked up surrounding whitespace, and no other key does |
| Content.ConvertShape | app/server.py:91-99 | a `TextContent` becomes its text; a dict keeps its keys in order and each value is converted; a list keeps its length and each item is converted; tuples and other objects are returned as they are |
| Content.ConvertAt | app/server.py:91-99 | a path through dict values and list items reaches a value in the result exactly when it does in the input, and reaches its conversion; a `TextContent(t)` at any depth becomes the string `t` at the same place |
| Content.Convert | app/server.py:91-99 | no `TextContent` is left in the result, directly or inside dict values and list items at any depth |
| Content.ConvertedFixed | app/server.py:91-99 | a value with no `TextContent` where the conversion looks is returned unchanged |
| Content.ConvertIdempotent | app/server.py:91-99 | converting twice is converting once |
| Content.TupleUntouched | app/server.py:99 | a `TextContent` inside a tuple is not reached |

`_override_config_with_env` appears twice with the same text, at app/server.py:28-53 and at app/security.py:17-42. The rows above cite the second; `ConfigEnv` models both.

## Left out

- Real file system: the file system is a value of canonical paths to file entries plus a set of directories. Symbolic links, permissions, encodings and the "//" root are not modelled; `resolve()` is lexical. Text-mode reading translates line endings (`ReadText`); writing leaves "\r" as it is, as on POSIX.
- Glob order: `glob()` yields entries in an order that is not known. The loaders pick entries nondeterministically, and their contracts are relational; when two files supply one key, which text wins is not stated.
- Read failures: a markdown entry whose `read_text` raises (a decoding error, a directory) is skipped, as the loader's `except` does. The reason and the printed diagnostic are not modelled.
- AgentsStore.WriteError: the `OSError` text of a failed write is modelled from the parent directory's state only (missing, a file, or a directory target). Permission errors and Python's exact repr quoting are not modelled.
- Process execution: `create_subprocess_exec`, `communicate`, `wait_for`, `kill` and `wait` are not modelled. The outcome of a run (exit code, decoded stdout and stderr, or a timeout) is an input to `Classify`, and the kill and wait are recorded as actions. Decoding errors of the output are not modelled.
- PyValues.Value: only strings, integers, booleans and `None` reach `str(value)` in the model. The schema's `"additionalProperties": True` (app/server.py:192) also lets floats, lists and dicts through; their `str()` is not modelled.
- Scripts.Bind: models Python's binding of keyword arguments; positional arguments and schema validation by the MCP library are not modelled.
- The MCP library's `add_resource` is not visible here. The model assumes an existing URI keeps its first registration, and `FunctionResource` validation failures (caught and printed by the loader) are not modelled.
- The constant parameter schema of the script resources (app/server.py:174-193) carries nothing to prove and is not modelled.
- FastAPI and MCP wiring is not modelled: `create_app`, mounting the streamable HTTP app, the `ToolError` handler, the `/test/call_tool` and `/health` endpoints, `uvicorn.run` and the argument parser.
- `print` diagnostics throughout are not modelled.
- YAML loading and `os.environ`: the configuration tree and the environment are passed in as values. Keys are strings, and lists, floats and null are one opaque `Other` leaf. The in-place mutation of nested dicts is modelled on values, so aliasing between sections is not captured.
- `int()` is modelled over ASCII digits with an optional sign, surrounding whitespace and single underscores; Unicode digits are not modelled. `upper()` and `lower()` act on ASCII letters only.
- The server's `SECURITY_ENABLED` is taken as a `bool` and `API_KEYS` as a list of strings; Python truthiness of other configured values is not modelled. The 403 that `APIKeyHeader(auto_error=True)` raises for a missing header in the security module is the library's and is not modelled.
- ApiKeys.GenerateApiKey: `secrets.token_urlsafe(32)` is randomness. The token is an input, assumed non-empty and URL-safe; its length is not modelled, and the key-file write is the text the function returns.
- ApiKeys.CompareDigest: the constant-time property of `secrets.compare_digest` is not modelled, only its result and its `TypeError` on non-ASCII strings.
- app/auth_example.py (OIDC login through Authlib) is not part of this model: it is foreign library calls and network I/O.
- Concurrency between asynchronous handlers, such as an update racing a reload, is not modelled; each operation runs to completion.

## Findings

| source | as written | input that shows it | evidently intended | confidence | as-written member | corrected member |
|---|---|---|---|---|---|---|
| app/server.py:321 | the containment test checks that the target's string starts with the markdown directory's string, with no separator after it | file name "../markdown_evil.agents.md" resolves to `<library>/markdown_evil.agents.md`, whose string starts with `<library>/markdown`, so it is accepted and written outside the markdown directory | accept only targets strictly inside the markdown directory: the directory's string plus "/" as the prefix | high; not executed | SafeWrite.SiblingDirectoryAccepted | SafeWrite.ContainedGateExact |
| app/security.py:25-34 | `isinstance(value, int)` is tested before `isinstance(value, bool)`, and a `bool` is an `int`, so boolean entries go through `int()` and the boolean branch never runs (the same at app/server.py:36-45) | a `false` entry with its variable set to "true": `int("true")` raises `ValueError`, and the entry stays false | test `bool` first, so a boolean entry is set from the listed true spellings in any case | high; not executed | ConfigEnv.OverrideTrueIgnored | ConfigEnv.IntendedKeepsBools |

The server's update method (`AgentsServer.UpdateAgentsFile`) and `ConfigEnv.Override` model the code as written, with `SafeWrite.Gate` and `ConfigEnv.Replace`. The corrections, `SafeWrite.ContainedGate` and `ConfigEnv.IntendedReplace`, are defined and proved beside them. `SafeWrite.ContainedGateNarrows` shows the corrected gate only removes acceptances. `SafeWrite.PlainNameAccepted` shows both gates agree on every plain file name.
