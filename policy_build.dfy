/**
 * policy-build.ts: the per-environment rendering of the policy files. For
 * every environment that has policy settings, every policy file's text goes
 * through a fixed chain of `{Settings:...}` substitutions, each replacing
 * every occurrence of its token, matched ignoring case.
 *
 * A JavaScript `replace` with a global regular expression built from a token
 * is modelled as a literal, left-to-right, non-overlapping replace-all; case
 * is ignored for ASCII letters only. Reading the settings file, finding the
 * files and writing the results are not modelled; the rendered texts are
 * returned instead.
 */
module PolicyBuild {
  import opened Wrappers
  import opened PolicyFiles

  // ---------------------------------------------------------------------------
  // Literal replace-all
  // ---------------------------------------------------------------------------

  /** ASCII lower case; every other character is left as it is. */
  function LowerAscii(c: char): (d: char)
    ensures 'A' <= c <= 'Z' ==> d as int == c as int + 32
    ensures !('A' <= c <= 'Z') ==> d == c
    ensures !('A' <= d <= 'Z')
  {
    if 'A' <= c <= 'Z' then (c as int + 32) as char else c
  }

  /** Two characters match: equal, or, when case is ignored, equal once lower-cased. */
  predicate SameChar(a: char, b: char, ignoreCase: bool) {
    if ignoreCase then LowerAscii(a) == LowerAscii(b) else a == b
  }

  /** `pat` occurs in `s` at position `i`. */
  predicate MatchesAt(s: string, pat: string, i: nat, ignoreCase: bool) {
    i + |pat| <= |s| && forall j :: 0 <= j < |pat| ==> SameChar(s[i + j], pat[j], ignoreCase)
  }

  /**
   * `s.replace(new RegExp(pat, flags), rep)` with the global flag: scanning
   * from the left, each occurrence of `pat` is replaced by `rep` and the scan
   * resumes after it.
   */
  function ReplaceAll(s: string, pat: string, rep: string, ignoreCase: bool): string
    requires pat != []
    decreases |s|
  {
    if |s| < |pat| then s
    else if MatchesAt(s, pat, 0, ignoreCase) then rep + ReplaceAll(s[|pat|..], pat, rep, ignoreCase)
    else [s[0]] + ReplaceAll(s[1..], pat, rep, ignoreCase)
  }

  lemma MatchesAtTail(s: string, pat: string, i: nat, ignoreCase: bool)
    requires s != []
    ensures MatchesAt(s[1..], pat, i, ignoreCase) <==> MatchesAt(s, pat, i + 1, ignoreCase)
  {
    if MatchesAt(s, pat, i + 1, ignoreCase) {
      forall j | 0 <= j < |pat|
        ensures SameChar(s[1..][i + j], pat[j], ignoreCase)
      {
        assert s[1..][i + j] == s[i + 1 + j];
      }
    }
  }

  /** Text in which the pattern does not occur passes through unchanged. */
  lemma {:induction false} ReplaceAllNoMatch(s: string, pat: string, rep: string, ignoreCase: bool)
    requires pat != []
    requires forall i: nat :: !MatchesAt(s, pat, i, ignoreCase)
    ensures ReplaceAll(s, pat, rep, ignoreCase) == s
    decreases |s|
  {
    if |s| >= |pat| {
      forall i: nat
        ensures !MatchesAt(s[1..], pat, i, ignoreCase)
      {
        MatchesAtTail(s, pat, i, ignoreCase);
      }
      ReplaceAllNoMatch(s[1..], pat, rep, ignoreCase);
      assert [s[0]] + s[1..] == s;
    }
  }

  /** A prefix in which no occurrence starts is copied as it is. */
  lemma {:induction false} ReplaceAllKeepsPrefix(s: string, pat: string, rep: string, ignoreCase: bool, i: nat)
    requires pat != [] && i <= |s|
    requires forall j: nat :: j < i ==> !MatchesAt(s, pat, j, ignoreCase)
    ensures ReplaceAll(s, pat, rep, ignoreCase) == s[..i] + ReplaceAll(s[i..], pat, rep, ignoreCase)
    decreases i
  {
    if i > 0 {
      assert !MatchesAt(s, pat, 0, ignoreCase);
      forall j: nat | j < i - 1
        ensures !MatchesAt(s[1..], pat, j, ignoreCase)
      {
        MatchesAtTail(s, pat, j, ignoreCase);
      }
      ReplaceAllKeepsPrefix(s[1..], pat, rep, ignoreCase, i - 1);
      assert s[1..][i - 1..] == s[i..];
      assert s[..i] == [s[0]] + s[1..][..i - 1];
      if |s| < |pat| {
        ReplaceAllNoMatch(s[i..], pat, rep, ignoreCase);
        assert s[..i] + s[i..] == s;
      }
    }
  }

  lemma MatchesAtDrop(s: string, pat: string, i: nat, ignoreCase: bool)
    requires MatchesAt(s, pat, i, ignoreCase)
    ensures MatchesAt(s[i..], pat, 0, ignoreCase)
  {
    forall j | 0 <= j < |pat|
      ensures SameChar(s[i..][j], pat[j], ignoreCase)
    {
      assert s[i..][j] == s[i + j];
    }
  }

  /**
   * The leftmost occurrence is the first one replaced: the text before it is
   * kept, the occurrence becomes `rep`, and the scan goes on after it.
   * Together with `ReplaceAllNoMatch` this determines the result.
   */
  lemma ReplaceAllFirst(s: string, pat: string, rep: string, ignoreCase: bool, i: nat)
    requires pat != []
    requires MatchesAt(s, pat, i, ignoreCase)
    requires forall j: nat :: j < i ==> !MatchesAt(s, pat, j, ignoreCase)
    ensures ReplaceAll(s, pat, rep, ignoreCase) == s[..i] + rep + ReplaceAll(s[i + |pat|..], pat, rep, ignoreCase)
  {
    ReplaceAllKeepsPrefix(s, pat, rep, ignoreCase, i);
    MatchesAtDrop(s, pat, i, ignoreCase);
    assert s[i..][|pat|..] == s[i + |pat|..];
  }

  /** The ASCII lower-case form of a string. */
  function LowerAsciiString(s: string): (t: string)
    ensures |t| == |s| && forall i :: 0 <= i < |s| ==> t[i] == LowerAscii(s[i])
  {
    seq(|s|, i requires 0 <= i < |s| => LowerAscii(s[i]))
  }

  /** With case ignored, a token may be written in any case: `{settings:tenant}` is `{Settings:Tenant}`. */
  lemma {:induction false} ReplaceAllAnyCase(s: string, pat: string, rep: string)
    requires pat != []
    ensures ReplaceAll(s, pat, rep, true) == ReplaceAll(s, LowerAsciiString(pat), rep, true)
    decreases |s|
  {
    var lower := LowerAsciiString(pat);
    if |s| >= |pat| {
      assert MatchesAt(s, pat, 0, true) <==> MatchesAt(s, lower, 0, true) by {
        forall j | 0 <= j < |pat|
          ensures SameChar(s[j], pat[j], true) <==> SameChar(s[j], lower[j], true)
        {
        }
      }
      if MatchesAt(s, pat, 0, true) {
        ReplaceAllAnyCase(s[|pat|..], pat, rep);
      } else {
        ReplaceAllAnyCase(s[1..], pat, rep);
      }
    }
  }

  // ---------------------------------------------------------------------------
  // File name values (lines 104-116)
  // ---------------------------------------------------------------------------

  /** The number of trailing characters that are neither `.` nor `/`. */
  function TrailingRun(s: string): (n: nat)
    ensures n <= |s|
    ensures forall j :: |s| - n <= j < |s| ==> s[j] != '.' && s[j] != '/'
    ensures n < |s| ==> s[|s| - n - 1] == '.' || s[|s| - n - 1] == '/'
    decreases |s|
  {
    if s == [] || s[|s| - 1] == '.' || s[|s| - 1] == '/' then 0 else TrailingRun(s[..|s| - 1]) + 1
  }

  /** `s` ends in a `.` at position `i` followed by one or more characters, none of them `.` or `/`. */
  predicate ExtensionAt(s: string, i: nat) {
    i + 1 < |s| && s[i] == '.' && forall j :: i < j < |s| ==> s[j] != '.' && s[j] != '/'
  }

  /**
   * `name.replace(/\.[^/.]+$/, '')`, the `{Settings:Filename}` value: a
   * trailing extension is removed; a name with no `.`, or with a `.` that is
   * last or followed by a `/`, is unchanged.
   */
  function StripExtension(name: string): (r: string)
    ensures forall i: nat :: ExtensionAt(name, i) ==> r == name[..i]
    ensures (forall i: nat :: !ExtensionAt(name, i)) ==> r == name
  {
    var n := TrailingRun(name);
    if 0 < n < |name| && name[|name| - n - 1] == '.' then
      assert ExtensionAt(name, |name| - n - 1);
      assert forall i: nat :: ExtensionAt(name, i) ==> i == |name| - n - 1;
      name[..|name| - n - 1]
    else
      assert forall i: nat :: !ExtensionAt(name, i) by {
        forall i: nat | ExtensionAt(name, i)
          ensures false
        {
        }
      }
      name
  }

  const PolicyPrefix := "B2C_1A_"

  /**
   * The `{Settings:PolicyFilename}` value: the extension-stripped name with
   * every occurrence of `B2C_1A_` deleted, matched with case.
   */
  function PolicyFilenameValue(fileName: string): string {
    ReplaceAll(StripExtension(fileName), PolicyPrefix, "", false)
  }

  /** A policy file named with the policy prefix once, as in `B2C_1A_Base.xml`, has the rest of its stem as value. */
  lemma PolicyFilenameOfPrefixed(fileName: string, rest: string)
    requires StripExtension(fileName) == PolicyPrefix + rest
    requires forall i: nat :: !MatchesAt(rest, PolicyPrefix, i, false)
    ensures PolicyFilenameValue(fileName) == rest
  {
    var s := PolicyPrefix + rest;
    assert MatchesAt(s, PolicyPrefix, 0, false);
    ReplaceAllFirst(s, PolicyPrefix, "", false, 0);
    assert s[|PolicyPrefix|..] == rest;
    ReplaceAllNoMatch(rest, PolicyPrefix, "", false);
  }

  /** A stem without the prefix is its own value. */
  lemma PolicyFilenameUnprefixed(fileName: string)
    requires forall i: nat :: !MatchesAt(StripExtension(fileName), PolicyPrefix, i, false)
    ensures PolicyFilenameValue(fileName) == StripExtension(fileName)
  {
    ReplaceAllNoMatch(StripExtension(fileName), PolicyPrefix, "", false);
  }

  // ---------------------------------------------------------------------------
  // Substitutions (lines 95-130)
  // ---------------------------------------------------------------------------

  /** `{Settings:<key>}`. */
  function Token(key: string): (t: string)
    ensures |t| == |key| + 11 && t[0] == '{' && t[|t| - 1] == '}'
  {
    "{Settings:" + key + "}"
  }

  /**
   * One entry of `Environments` in the settings file: its name, its tenant
   * and, unless missing, its `PolicySettings` as (key, value) pairs in the
   * order `Object.keys` lists them.
   */
  datatype Environment = Environment(name: string, tenant: string, policySettings: Option<seq<(string, string)>>)

  /** Lines 98-122: the four fixed substitutions, each on the result of the one before. */
  function FixedSubstitutions(content: string, fileName: string, env: Environment): string {
    var tenant := ReplaceAll(content, Token("Tenant"), env.tenant, true);
    var fileNamed := ReplaceAll(tenant, Token("Filename"), StripExtension(fileName), true);
    var policyNamed := ReplaceAll(fileNamed, Token("PolicyFilename"), PolicyFilenameValue(fileName), true);
    ReplaceAll(policyNamed, Token("Environment"), env.name, true)
  }

  /** Lines 125-130: one substitution per policy setting, in key order. */
  function ApplySettings(content: string, settings: seq<(string, string)>): string
    decreases |settings|
  {
    if settings == [] then content
    else
      var n := |settings| - 1;
      ReplaceAll(ApplySettings(content, settings[..n]), Token(settings[n].0), settings[n].1, true)
  }

  /** The text written for one policy file in one environment that has settings. */
  function Rendered(content: string, fileName: string, env: Environment): string
    requires env.policySettings.Some?
  {
    ApplySettings(FixedSubstitutions(content, fileName, env), env.policySettings.value)
  }

  /** No token of the chain occurs in `s`. */
  ghost predicate NoTokens(s: string, keys: seq<string>) {
    && (forall i: nat :: !MatchesAt(s, Token("Tenant"), i, true))
    && (forall i: nat :: !MatchesAt(s, Token("Filename"), i, true))
    && (forall i: nat :: !MatchesAt(s, Token("PolicyFilename"), i, true))
    && (forall i: nat :: !MatchesAt(s, Token("Environment"), i, true))
    && (forall k, i: nat :: 0 <= k < |keys| ==> !MatchesAt(s, Token(keys[k]), i, true))
  }

  function Keys(settings: seq<(string, string)>): (keys: seq<string>)
    ensures |keys| == |settings| && forall k :: 0 <= k < |settings| ==> keys[k] == settings[k].0
  {
    seq(|settings|, k requires 0 <= k < |settings| => settings[k].0)
  }

  lemma {:induction false} ApplySettingsPassThrough(content: string, settings: seq<(string, string)>)
    requires forall k, i: nat :: 0 <= k < |settings| ==> !MatchesAt(content, Token(settings[k].0), i, true)
    ensures ApplySettings(content, settings) == content
    decreases |settings|
  {
    if settings != [] {
      var n := |settings| - 1;
      ApplySettingsPassThrough(content, settings[..n]);
      ReplaceAllNoMatch(content, Token(settings[n].0), settings[n].1, true);
    }
  }

  /** A policy text containing none of the tokens is written unchanged. */
  lemma RenderedPassThrough(content: string, fileName: string, env: Environment)
    requires env.policySettings.Some? && NoTokens(content, Keys(env.policySettings.value))
    ensures Rendered(content, fileName, env) == content
  {
    ReplaceAllNoMatch(content, Token("Tenant"), env.tenant, true);
    ReplaceAllNoMatch(content, Token("Filename"), StripExtension(fileName), true);
    ReplaceAllNoMatch(content, Token("PolicyFilename"), PolicyFilenameValue(fileName), true);
    ReplaceAllNoMatch(content, Token("Environment"), env.name, true);
    var settings := env.policySettings.value;
    forall k, i: nat | 0 <= k < |settings|
      ensures !MatchesAt(content, Token(settings[k].0), i, true)
    {
      assert Keys(settings)[k] == settings[k].0;
    }
    ApplySettingsPassThrough(content, settings);
  }

  /**
   * Lines 95-130: the substitution chain for one policy file, reassigning the
   * content step by step.
   */
  method RenderPolicy(file: PolicyFile, env: Environment) returns (policyContent: string)
    requires env.policySettings.Some?
    ensures policyContent == Rendered(file.data, file.fileName, env)
  {
    policyContent := file.data;
    policyContent := ReplaceAll(policyContent, Token("Tenant"), env.tenant, true);
    policyContent := ReplaceAll(policyContent, Token("Filename"), StripExtension(file.fileName), true);
    policyContent := ReplaceAll(policyContent, Token("PolicyFilename"), PolicyFilenameValue(file.fileName), true);
    policyContent := ReplaceAll(policyContent, Token("Environment"), env.name, true);
    ghost var fixed := policyContent;
    var settings := env.policySettings.value;
    for i := 0 to |settings|
      invariant policyContent == ApplySettings(fixed, settings[..i])
    {
      assert settings[..i + 1][..i] == settings[..i];
      policyContent := ReplaceAll(policyContent, Token(settings[i].0), settings[i].1, true);
    }
    assert settings[..|settings|] == settings;
  }

  // ---------------------------------------------------------------------------
  // Environments (lines 75-158)
  // ---------------------------------------------------------------------------

  /** One file the build writes: the environment folder, the file name and the rendered text. */
  datatype Output = Output(environment: string, fileName: string, content: string)

  /** The lists of `xss` one after the other. */
  function Flatten<T>(xss: seq<seq<T>>): seq<T>
    decreases |xss|
  {
    if xss == [] then [] else Flatten(xss[..|xss| - 1]) + xss[|xss| - 1]
  }

  lemma {:induction false} FlattenMembers<T>(xss: seq<seq<T>>, x: T)
    ensures x in Flatten(xss) <==> exists e :: 0 <= e < |xss| && x in xss[e]
    decreases |xss|
  {
    if xss != [] {
      var n := |xss| - 1;
      FlattenMembers(xss[..n], x);
      if x in Flatten(xss[..n]) {
        var e :| 0 <= e < n && x in xss[..n][e];
        assert xss[e] == xss[..n][e];
      }
      if exists e :: 0 <= e < |xss| && x in xss[e] {
        var e :| 0 <= e < |xss| && x in xss[e];
        if e < n {
          assert xss[..n][e] == xss[e];
        }
      }
    }
  }

  /** What each environment writes, in environment order. */
  function PerEnvironment(envs: seq<Environment>, sources: seq<(string, string)>): (outs: seq<seq<Output>>)
    ensures |outs| == |envs| && forall e :: 0 <= e < |envs| ==> outs[e] == EnvironmentOutputs(envs[e], sources)
  {
    seq(|envs|, e requires 0 <= e < |envs| => EnvironmentOutputs(envs[e], sources))
  }

  /** What the build writes: every file in turn, for each environment that has settings. */
  function Outputs(envs: seq<Environment>, sources: seq<(string, string)>): seq<Output> {
    Flatten(PerEnvironment(envs, sources))
  }

  /** One more environment appends what it writes. */
  lemma OutputsSnoc(envs: seq<Environment>, sources: seq<(string, string)>, e: nat)
    requires e < |envs|
    ensures Outputs(envs[..e + 1], sources) == Outputs(envs[..e], sources) + EnvironmentOutputs(envs[e], sources)
  {
    var xss := PerEnvironment(envs[..e + 1], sources);
    assert xss[..e] == PerEnvironment(envs[..e], sources);
    assert xss[e] == EnvironmentOutputs(envs[e], sources);
  }

  /** Lines 78-155 for one environment: nothing without settings, else one output per file. */
  function EnvironmentOutputs(env: Environment, sources: seq<(string, string)>): (outs: seq<Output>)
    ensures env.policySettings.None? ==> outs == []
    ensures env.policySettings.Some? ==> |outs| == |sources|
  {
    if env.policySettings.None? then []
    else seq(|sources|, i requires 0 <= i < |sources| => Output(env.name, sources[i].0, Rendered(sources[i].1, sources[i].0, env)))
  }

  /** `o` is what environment `env` writes for the `i`th file. */
  predicate Renders(env: Environment, sources: seq<(string, string)>, i: int, o: Output) {
    && 0 <= i < |sources| && env.policySettings.Some?
    && o == Output(env.name, sources[i].0, Rendered(sources[i].1, sources[i].0, env))
  }

  lemma EnvironmentOutputsMembers(env: Environment, sources: seq<(string, string)>, o: Output)
    ensures o in EnvironmentOutputs(env, sources) <==> exists i :: Renders(env, sources, i, o)
  {
    if o in EnvironmentOutputs(env, sources) {
      var i :| 0 <= i < |sources| && EnvironmentOutputs(env, sources)[i] == o;
      assert Renders(env, sources, i, o);
    }
    if exists i :: Renders(env, sources, i, o) {
      var i :| Renders(env, sources, i, o);
      assert EnvironmentOutputs(env, sources)[i] == o;
    }
  }

  /**
   * An output is written exactly when some environment with settings renders
   * some file; an environment without settings writes nothing.
   */
  lemma OutputsMembers(envs: seq<Environment>, sources: seq<(string, string)>, o: Output)
    ensures o in Outputs(envs, sources) <==> exists e, i :: 0 <= e < |envs| && Renders(envs[e], sources, i, o)
  {
    FlattenMembers(PerEnvironment(envs, sources), o);
    forall e | 0 <= e < |envs|
      ensures o in EnvironmentOutputs(envs[e], sources) <==> exists i :: Renders(envs[e], sources, i, o)
    {
      EnvironmentOutputsMembers(envs[e], sources, o);
    }
  }

  /** The name and text of every file, in order. */
  function Sources(files: seq<PolicyFile>): (sources: seq<(string, string)>)
    reads set i | 0 <= i < |files| :: files[i]
    ensures |sources| == |files| && forall i :: 0 <= i < |files| ==> sources[i] == (files[i].fileName, files[i].data)
  {
    seq(|files|, i reads set i | 0 <= i < |files| :: files[i] requires 0 <= i < |files| => (files[i].fileName, files[i].data))
  }

  /** Lines 78-155: render every file for one environment, or nothing when its settings are missing. */
  method RenderEnvironment(env: Environment, files: seq<PolicyFile>) returns (outputs: seq<Output>)
    ensures outputs == EnvironmentOutputs(env, Sources(files))
  {
    if env.policySettings.None? {
      return [];
    }
    outputs := [];
    for i := 0 to |files|
      invariant |outputs| == i
      invariant forall j :: 0 <= j < i ==> outputs[j] == EnvironmentOutputs(env, Sources(files))[j]
    {
      var policyContent := RenderPolicy(files[i], env);
      outputs := outputs + [Output(env.name, files[i].fileName, policyContent)];
    }
  }

  /** Lines 75-158: every environment in turn. */
  method RenderEnvironments(envs: seq<Environment>, files: seq<PolicyFile>) returns (outputs: seq<Output>)
    ensures outputs == Outputs(envs, Sources(files))
  {
    outputs := [];
    ghost var sources := Sources(files);
    assert PerEnvironment(envs[..0], sources) == [];
    for e := 0 to |envs|
      invariant outputs == Outputs(envs[..e], sources)
    {
      OutputsSnoc(envs, sources, e);
      var rendered := RenderEnvironment(envs[e], files);
      outputs := outputs + rendered;
    }
    assert envs[..|envs|] == envs;
  }
}
