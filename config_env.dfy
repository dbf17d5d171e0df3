/** `_override_config_with_env`: each leaf of the configuration tree may be
    replaced from the environment variable named by its key path, joined
    with "_" and upper-cased. The routine appears twice in the repository,
    once in the server and once in the key-file module, with the same
    text; this module models both, as written: the `int` test shadows the
    `bool` test (`Replace`). `IntendedReplace` is the replacement with the
    `bool` test first, the order the boolean branch is written for. */
module ConfigEnv {
  import opened Outcomes
  import opened Text

  /** A value of the YAML configuration: a mapping, in key order, or a
      leaf. `Other` stands for the leaves that are neither `int`, `bool`
      nor `str` (lists, floats, null). */
  datatype ConfigValue =
    | Section(entries: seq<(string, ConfigValue)>)
    | Int(n: int)
    | Bool(b: bool)
    | Str(s: string)
    | Other

  /** The new value of the leaf `leaf` whose variable is `name`, as the
      routine is written. The `int` test comes first and a `bool` is an
      `int` in Python, so a boolean leaf goes through `int()` as well; when
      `int()` fails the leaf is kept. Any other leaf takes the variable's
      text. */
  function Replace(leaf: ConfigValue, name: string, env: map<string, string>): (r: ConfigValue)
    requires !leaf.Section?
    ensures !r.Section?
    ensures name !in env ==> r == leaf
    ensures r.Bool? ==> r == leaf
    ensures r.Str? && r != leaf ==> !leaf.Int? && !leaf.Bool? && name in env && r.s == env[name]
    ensures r.Int? && r != leaf ==> name in env && ParseInt(env[name]) == Some(r.n)
  {
    if name !in env then leaf
    else if leaf.Int? || leaf.Bool? then
      match ParseInt(env[name])
      case Some(n) => Int(n)
      case None => leaf
    else Str(env[name])
  }

  /** The section `section`, whose keys are prefixed with `prefix`, after
      the override: mappings are descended into with the prefix extended by
      their own upper-cased name and "_", leaves are replaced. */
  function Override(section: ConfigValue, prefix: string, env: map<string, string>): (r: ConfigValue)
    requires section.Section?
    ensures r.Section? && |r.entries| == |section.entries|
    ensures forall i :: 0 <= i < |section.entries| ==>
      r.entries[i].0 == section.entries[i].0 && (r.entries[i].1.Section? <==> section.entries[i].1.Section?)
    decreases section
  {
    var es := section.entries;
    Section(seq(|es|, i requires 0 <= i < |es| =>
      assert es[i] in es;
      var name := Upper(prefix + es[i].0);
      (es[i].0, if es[i].1.Section? then Override(es[i].1, name + "_", env) else Replace(es[i].1, name, env))))
  }

  /** The routine itself: a loop over the entries that recurses into the
      mappings and assigns the replaced leaves. The `int` test comes first
      and also catches `bool` leaves, so the boolean branch never runs. */
  method OverrideWithEnv(config: ConfigValue, prefix: string, env: map<string, string>) returns (r: ConfigValue)
    requires config.Section?
    ensures r == Override(config, prefix, env)
    decreases config
  {
    var entries := config.entries;
    ghost var spec := Override(config, prefix, env).entries;
    for i := 0 to |config.entries|
      invariant |entries| == |config.entries|
      invariant forall j :: 0 <= j < i ==> entries[j] == spec[j]
      invariant forall j :: i <= j < |entries| ==> entries[j] == config.entries[j]
    {
      var (key, value) := config.entries[i];
      assert config.entries[i] in config.entries;
      var name := Upper(prefix + key);
      if value.Section? {
        var inner := OverrideWithEnv(value, name + "_", env);
        entries := entries[i := (key, inner)];
      } else if name in env {
        if value.Int? || value.Bool? {
          var parsed := ParseInt(env[name]);
          if parsed.Some? {
            entries := entries[i := (key, Int(parsed.value))];
          }
        } else {
          entries := entries[i := (key, Str(env[name]))];
        }
      }
    }
    r := Section(entries);
  }

  // ---------------------------------------------------------------------------
  // Looking entries up by key path
  // ---------------------------------------------------------------------------

  /** The first position of `key` among the entries: where `d[key]` looks. */
  function FindKey(entries: seq<(string, ConfigValue)>, key: string): (r: Option<nat>)
    ensures r.Some? ==> r.value < |entries| && entries[r.value].0 == key
    ensures r.Some? ==> forall j :: 0 <= j < r.value ==> entries[j].0 != key
    ensures r.None? ==> forall j :: 0 <= j < |entries| ==> entries[j].0 != key
  {
    if entries == [] then None
    else if entries[0].0 == key then Some(0)
    else match FindKey(entries[1..], key)
      case None => None
      case Some(j) => Some(j + 1)
  }

  /** `config[k1][k2]...[kn]`, or `None` where a key is missing or a leaf is
      indexed. */
  function Lookup(v: ConfigValue, path: seq<string>): Option<ConfigValue>
    decreases |path|
  {
    if path == [] then Some(v)
    else if !v.Section? then None
    else match FindKey(v.entries, path[0])
      case None => None
      case Some(i) => Lookup(v.entries[i].1, path[1..])
  }

  /** The key path joined with "_". */
  function Joined(path: seq<string>): string
    requires path != []
  {
    if |path| == 1 then path[0] else path[0] + "_" + Joined(path[1..])
  }

  /** Two entry lists with the same keys in the same order find a key at the
      same position. */
  lemma {:induction false} FindKeySameKeys(a: seq<(string, ConfigValue)>, b: seq<(string, ConfigValue)>, key: string)
    requires |a| == |b| && forall i :: 0 <= i < |a| ==> a[i].0 == b[i].0
    ensures FindKey(a, key) == FindKey(b, key)
  {
    if a != [] {
      FindKeySameKeys(a[1..], b[1..], key);
    }
  }

  /** The variable name of a nested leaf: upper-casing the prefix once more
      changes nothing. */
  lemma NestedName(prefix: string, key: string, rest: string)
    ensures Upper(Upper(prefix + key) + "_" + rest) == Upper(prefix + key + "_" + rest)
  {
    UpperConcat(Upper(prefix + key), "_" + rest);
    UpperIdempotent(prefix + key);
    UpperConcat(prefix + key, "_" + rest);
    assert Upper(prefix + key) + "_" + rest == Upper(prefix + key) + ("_" + rest);
    assert prefix + key + "_" + rest == (prefix + key) + ("_" + rest);
  }

  /** The entry at position `i` after the override. */
  lemma OverrideEntry(config: ConfigValue, prefix: string, env: map<string, string>, i: nat)
    requires config.Section? && i < |config.entries|
    ensures var child := config.entries[i].1;
            var name := Upper(prefix + config.entries[i].0);
            Override(config, prefix, env).entries[i].1
              == if child.Section? then Override(child, name + "_", env) else Replace(child, name, env)
  {
  }

  /** Looking up a path in a section looks up its tail in the entry its
      first key finds. */
  lemma LookupStep(v: ConfigValue, path: seq<string>, i: nat)
    requires v.Section? && path != [] && FindKey(v.entries, path[0]) == Some(i)
    ensures Lookup(v, path) == Lookup(v.entries[i].1, path[1..])
  {
  }

  /** The leaf at a key path is replaced from the variable named by the
      upper-cased path joined with "_". */
  lemma {:induction false} LeafOverride(config: ConfigValue, prefix: string, path: seq<string>, env: map<string, string>)
    requires config.Section? && path != []
    requires Lookup(config, path).Some? && !Lookup(config, path).value.Section?
    ensures Lookup(Override(config, prefix, env), path)
         == Some(Replace(Lookup(config, path).value, Upper(prefix + Joined(path)), env))
    decreases |path|
  {
    var r := Override(config, prefix, env);
    var key := path[0];
    FindKeySameKeys(config.entries, r.entries, key);
    var i := FindKey(config.entries, key).value;
    LookupStep(config, path, i);
    LookupStep(r, path, i);
    OverrideEntry(config, prefix, env, i);
    var child := config.entries[i].1;
    var name := Upper(prefix + key);
    var rest := path[1..];
    if rest == [] {
      assert Joined(path) == key;
    } else {
      var j := Joined(rest);
      assert child.Section?;
      assert Joined(path) == key + "_" + j;
      assert prefix + Joined(path) == prefix + key + "_" + j;
      LeafOverride(child, name + "_", rest, env);
      NestedName(prefix, key, j);
    }
  }

  /** An entry whose variable is not set keeps its value. */
  lemma UnsetLeafKept(config: ConfigValue, prefix: string, path: seq<string>, env: map<string, string>)
    requires config.Section? && path != []
    requires Lookup(config, path).Some? && !Lookup(config, path).value.Section?
    requires Upper(prefix + Joined(path)) !in env
    ensures Lookup(Override(config, prefix, env), path) == Lookup(config, path)
  {
    LeafOverride(config, prefix, path, env);
  }

  /** A mapping is never replaced: every key path reaches a mapping after
      the override exactly when it did before, and a leaf exactly when it
      did before. */
  lemma {:induction false} SectionsKept(config: ConfigValue, prefix: string, path: seq<string>, env: map<string, string>)
    requires config.Section?
    ensures Lookup(Override(config, prefix, env), path).Some? <==> Lookup(config, path).Some?
    ensures Lookup(config, path).Some? ==>
      (Lookup(Override(config, prefix, env), path).value.Section? <==> Lookup(config, path).value.Section?)
    decreases |path|
  {
    var r := Override(config, prefix, env);
    if path != [] {
      var key := path[0];
      FindKeySameKeys(config.entries, r.entries, key);
      var found := FindKey(config.entries, key);
      if found.Some? {
        var i := found.value;
        var child := config.entries[i].1;
        var name := Upper(prefix + key);
        if child.Section? {
          assert r.entries[i].1 == Override(child, name + "_", env);
          SectionsKept(child, name + "_", path[1..], env);
        } else {
          assert r.entries[i].1 == Replace(child, name, env);
        }
      }
    }
  }

  // ---------------------------------------------------------------------------
  // How a leaf takes the variable's text
  // ---------------------------------------------------------------------------

  /** An `int` leaf takes the number the variable renders. */
  lemma IntLeafParsed(n: int, m: int, name: string, env: map<string, string>)
    requires name in env && env[name] == IntToDecimal(m)
    ensures Replace(Int(n), name, env) == Int(m)
  {
    IntRoundTrip(m);
  }

  /** An `int` leaf whose variable is not a number keeps its value: the
      `ValueError` of `int()` is caught and the default stays. */
  lemma IntLeafKept(n: int, name: string, env: map<string, string>)
    requires name in env && ParseInt(env[name]).None?
    ensures Replace(Int(n), name, env) == Int(n)
  {
  }

  /** A `str` or other leaf takes the variable's text verbatim, whatever it
      holds. */
  lemma TextLeafReplaced(leaf: ConfigValue, name: string, env: map<string, string>)
    requires leaf.Str? || leaf.Other?
    requires name in env
    ensures Replace(leaf, name, env) == Str(env[name])
  {
  }

  /** As written, a `bool` leaf goes through `int()`: a rendered number
      turns it into an `int`. */
  lemma BoolTakesIntPath(b: bool, m: int, name: string, env: map<string, string>)
    requires name in env && env[name] == IntToDecimal(m)
    ensures Replace(Bool(b), name, env) == Int(m)
  {
    IntRoundTrip(m);
  }

  /** ... and "true" is not a number, so the leaf is kept: setting a false
      flag to "true" from the environment has no effect. */
  lemma BoolTrueIgnored(name: string, env: map<string, string>, text: string)
    requires text == "true" && name in env && env[name] == text
    ensures Replace(Bool(false), name, env) == Bool(false)
  {
    NotANumber(text);
  }

  /** In the routine: a `bool` entry whose variable renders a number
      becomes that number, an `int`. */
  lemma OverrideBoolBecomesInt(config: ConfigValue, prefix: string, path: seq<string>,
                               env: map<string, string>, b: bool, m: int)
    requires config.Section? && path != [] && Lookup(config, path) == Some(Bool(b))
    requires Upper(prefix + Joined(path)) in env && env[Upper(prefix + Joined(path))] == IntToDecimal(m)
    ensures Lookup(Override(config, prefix, env), path) == Some(Int(m))
  {
    LeafOverride(config, prefix, path, env);
    BoolTakesIntPath(b, m, Upper(prefix + Joined(path)), env);
  }

  /** In the routine: a `false` entry whose variable is "true" stays
      `false`. */
  lemma OverrideTrueIgnored(config: ConfigValue, prefix: string, path: seq<string>, env: map<string, string>)
    requires config.Section? && path != [] && Lookup(config, path) == Some(Bool(false))
    requires Upper(prefix + Joined(path)) in env && env[Upper(prefix + Joined(path))] == "true"
    ensures Lookup(Override(config, prefix, env), path) == Some(Bool(false))
  {
    LeafOverride(config, prefix, path, env);
    BoolTrueIgnored(Upper(prefix + Joined(path)), env, "true");
  }

  lemma NotANumber(text: string)
    requires text == "true"
    ensures ParseInt(text) == None
  {
    assert !IsSpace(text[0]) && !IsSpace(text[3]);
    StripUnchanged(text);
    assert !IsDigit(text[0]);
  }

  // ---------------------------------------------------------------------------
  // The boolean branch as intended
  // ---------------------------------------------------------------------------

  /** The spellings the boolean branch treats as true. */
  predicate Truthy(text: string)
  {
    var t := Lower(text);
    t == "true" || t == "1" || t == "t" || t == "y" || t == "yes"
  }

  /** The replacement with the `bool` test before the `int` test, which
      the boolean branch of the routine is written for. */
  function IntendedReplace(leaf: ConfigValue, name: string, env: map<string, string>): (r: ConfigValue)
    requires !leaf.Section?
    ensures name !in env ==> r == leaf
    ensures !leaf.Bool? ==> r == Replace(leaf, name, env)
  {
    if name in env && leaf.Bool? then Bool(Truthy(env[name])) else Replace(leaf, name, env)
  }

  /** With the intended order a boolean leaf stays a boolean, and "true" in
      any letter case sets it. */
  lemma IntendedKeepsBools(b: bool, name: string, env: map<string, string>)
    requires name in env
    ensures IntendedReplace(Bool(b), name, env).Bool?
    ensures IntendedReplace(Bool(b), name, env).b <==> Truthy(env[name])
  {
  }

  lemma IntendedTrueSets(name: string, env: map<string, string>, text: string)
    requires text == "TRUE" && name in env && env[name] == text
    ensures IntendedReplace(Bool(false), name, env) == Bool(true)
  {
    assert Lower(text) == "true";
  }
}
