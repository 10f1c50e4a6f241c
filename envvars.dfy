/**
 * `Locations._resolve_env_vars`: every `$NAME` in a configured path is
 * replaced by the value of the environment variable NAME, where NAME is a
 * letter or underscore followed by letters, digits and underscores. An unset
 * or empty variable is an error. Home-directory expansion is the identity
 * here and the environment is a map.
 */
module EnvVars {
  import opened Wrappers

  type Env = map<string, string>

  datatype EnvError = Unset(name: string) | Empty(name: string)

  /** The text of the `ConfigError` raised for each case. */
  function Message(e: EnvError): string
  {
    match e
    case Unset(name) => "Unset environment variable: $" + name
    case Empty(name) => "Empty environment variable: $" + name
  }

  /** Resolution terminates because no value brings in a new `$`. */
  predicate DollarFree(env: Env)
  {
    forall n :: n in env ==> '$' !in env[n]
  }

  // ---------------------------------------------------------------------------
  // The pattern `\$([a-zA-Z_]+[a-zA-Z0-9_]*)`
  // ---------------------------------------------------------------------------

  predicate NameStart(c: char)
  {
    'a' <= c <= 'z' || 'A' <= c <= 'Z' || c == '_'
  }

  predicate NameChar(c: char)
  {
    NameStart(c) || '0' <= c <= '9'
  }

  /** A match of the pattern starts at `p`. */
  predicate VarAt(s: string, p: int)
  {
    0 <= p && p + 1 < |s| && s[p] == '$' && NameStart(s[p + 1])
  }

  function FindVarFrom(s: string, i: nat): (r: Option<nat>)
    requires i <= |s|
    ensures r.Some? ==> i <= r.value && VarAt(s, r.value) && forall q :: i <= q < r.value ==> !VarAt(s, q)
    ensures r.None? ==> forall q :: i <= q < |s| ==> !VarAt(s, q)
    decreases |s| - i
  {
    if i == |s| then None
    else if VarAt(s, i) then Some(i)
    else FindVarFrom(s, i + 1)
  }

  /** `re.search`: where the left-most match starts, if there is one. */
  function FindVar(s: string): (r: Option<nat>)
    ensures r.Some? ==> VarAt(s, r.value) && forall q :: 0 <= q < r.value ==> !VarAt(s, q)
    ensures r.None? <==> forall q :: 0 <= q < |s| ==> !VarAt(s, q)
  {
    FindVarFrom(s, 0)
  }

  /** Where the run of name characters starting at `i` ends. */
  function NameEnd(s: string, i: nat): (j: nat)
    requires i <= |s|
    ensures i <= j <= |s|
    ensures forall k :: i <= k < j ==> NameChar(s[k])
    ensures j < |s| ==> !NameChar(s[j])
    decreases |s| - i
  {
    if i < |s| && NameChar(s[i]) then NameEnd(s, i + 1) else i
  }

  /** `match.group(1)`: the greedy name after the `$` at `p`. */
  function VarName(s: string, p: nat): (name: string)
    requires VarAt(s, p)
    ensures name != [] && NameStart(name[0]) && forall k :: 0 <= k < |name| ==> NameChar(name[k])
    ensures p + 1 + |name| <= |s| && s[p + 1..p + 1 + |name|] == name
    ensures p + 1 + |name| < |s| ==> !NameChar(s[p + 1 + |name|])
  {
    s[p + 1..NameEnd(s, p + 1)]
  }

  // ---------------------------------------------------------------------------
  // `str.replace`
  // ---------------------------------------------------------------------------

  /** Every occurrence of `pat`, scanning left to right without overlaps, replaced by `val`. */
  function ReplaceAll(s: string, pat: string, val: string): string
    requires pat != []
    decreases |s|
  {
    if |s| < |pat| then s
    else if s[..|pat|] == pat then val + ReplaceAll(s[|pat|..], pat, val)
    else [s[0]] + ReplaceAll(s[1..], pat, val)
  }

  /** The number of `$` in `s`. */
  function Dollars(s: string): (n: nat)
    ensures n <= |s|
    ensures n == 0 <==> '$' !in s
  {
    if s == [] then 0 else (if s[0] == '$' then 1 else 0) + Dollars(s[1..])
  }

  lemma {:induction false} DollarsAppend(a: string, b: string)
    ensures Dollars(a + b) == Dollars(a) + Dollars(b)
  {
    if a != [] {
      assert (a + b)[1..] == a[1..] + b;
      DollarsAppend(a[1..], b);
    } else {
      assert a + b == b;
    }
  }

  lemma DollarsSplit(s: string, k: nat)
    requires k <= |s|
    ensures Dollars(s) == Dollars(s[..k]) + Dollars(s[k..])
  {
    assert s == s[..k] + s[k..];
    DollarsAppend(s[..k], s[k..]);
  }

  /** Replacing a one-`$` pattern by a `$`-free value never adds a `$`. */
  lemma {:induction false} ReplaceNoMore(s: string, pat: string, val: string)
    requires pat != [] && Dollars(pat) == 1 && Dollars(val) == 0
    ensures Dollars(ReplaceAll(s, pat, val)) <= Dollars(s)
    decreases |s|
  {
    if |s| < |pat| {
    } else if s[..|pat|] == pat {
      ReplaceNoMore(s[|pat|..], pat, val);
      DollarsAppend(val, ReplaceAll(s[|pat|..], pat, val));
      DollarsSplit(s, |pat|);
    } else {
      ReplaceNoMore(s[1..], pat, val);
      DollarsAppend([s[0]], ReplaceAll(s[1..], pat, val));
      DollarsSplit(s, 1);
    }
  }

  /** ... and removes at least one when the pattern occurs. */
  lemma {:induction false} ReplaceFewer(s: string, pat: string, val: string, p: nat)
    requires pat != [] && Dollars(pat) == 1 && Dollars(val) == 0
    requires p + |pat| <= |s| && s[p..p + |pat|] == pat
    ensures Dollars(ReplaceAll(s, pat, val)) < Dollars(s)
    decreases |s|
  {
    if s[..|pat|] == pat {
      ReplaceNoMore(s[|pat|..], pat, val);
      DollarsAppend(val, ReplaceAll(s[|pat|..], pat, val));
      DollarsSplit(s, |pat|);
    } else {
      assert p > 0;
      assert s[1..][p - 1..p - 1 + |pat|] == pat;
      ReplaceFewer(s[1..], pat, val, p - 1);
      DollarsAppend([s[0]], ReplaceAll(s[1..], pat, val));
      DollarsSplit(s, 1);
    }
  }

  /** One substitution step removes a `$`, which bounds the number of steps. */
  lemma SubstituteShrinks(s: string, p: nat, env: Env)
    requires VarAt(s, p) && DollarFree(env)
    requires VarName(s, p) in env
    ensures Dollars(ReplaceAll(s, "$" + VarName(s, p), env[VarName(s, p)])) < Dollars(s)
  {
    var name := VarName(s, p);
    var pat := "$" + name;
    DollarsAppend("$", name);
    assert '$' !in name by {
      forall k | 0 <= k < |name| ensures name[k] != '$' {
        assert NameChar(name[k]);
      }
    }
    assert s[p..p + |pat|] == pat;
    ReplaceFewer(s, pat, env[name], p);
  }

  // ---------------------------------------------------------------------------
  // Resolution
  // ---------------------------------------------------------------------------

  /**
   * The result of `_resolve_env_vars`: take the left-most `$NAME`, fail if
   * NAME is unset or empty, otherwise replace every `$NAME` and go on. A
   * path it accepts has no `$NAME` left.
   */
  function Resolve(path: string, env: Env): (r: Result<string, EnvError>)
    requires DollarFree(env)
    ensures r.Ok? ==> FindVar(r.value).None?
    ensures r.Err? && r.error.Unset? ==> r.error.name !in env
    ensures r.Err? && r.error.Empty? ==> r.error.name in env && env[r.error.name] == ""
    ensures r.Err? ==> r.error.name != [] && NameStart(r.error.name[0])
    decreases Dollars(path)
  {
    match FindVar(path)
    case None => Ok(path)
    case Some(p) =>
      var name := VarName(path, p);
      if name !in env then Err(Unset(name))
      else if env[name] == "" then Err(Empty(name))
      else
        SubstituteShrinks(path, p, env);
        Resolve(ReplaceAll(path, "$" + name, env[name]), env)
  }

  /** Resolving a resolved path changes nothing. */
  lemma ResolveIdempotent(path: string, env: Env)
    requires DollarFree(env) && Resolve(path, env).Ok?
    ensures Resolve(Resolve(path, env).value, env) == Resolve(path, env)
  {
  }

  /** A path with no `$` in it comes back as it is. */
  lemma ResolveDollarFree(path: string, env: Env)
    requires DollarFree(env) && '$' !in path
    ensures Resolve(path, env) == Ok(path)
  {
    assert FindVar(path).None? by {
      forall q | 0 <= q < |path| ensures !VarAt(path, q) {
        assert path[q] in path;
      }
    }
  }

  /** A variable whose name starts with the name of a set one is replaced by that one's value first. */
  lemma LongerNameShadowed(env: Env)
    requires env == map["HOME" := "/h"]
    ensures Resolve("$HOME/$HOMEDIR", env) == Ok("/h//hDIR")
  {
    FirstVarIsHome();
    ReplaceHome();
    ResolveDollarFree("/h//hDIR", env);
  }

  /** The left-most match in `$HOME/$HOMEDIR` is `$HOME` at the start. */
  lemma FirstVarIsHome()
    ensures FindVar("$HOME/$HOMEDIR") == Some(0) && VarAt("$HOME/$HOMEDIR", 0)
    ensures "$" + VarName("$HOME/$HOMEDIR", 0) == "$HOME"
  {
    var s := "$HOME/$HOMEDIR";
    assert VarAt(s, 0) && NameEnd(s, 5) == 5;
  }

  /** Replacing `$HOME` replaces the head of `$HOMEDIR` as well. */
  lemma ReplaceHome()
    ensures ReplaceAll("$HOME/$HOMEDIR", "$HOME", "/h") == "/h//hDIR"
  {
    var s := "$HOME/$HOMEDIR";
    assert s[..5] == "$HOME" && s[5..] == "/$HOMEDIR";
    ReplaceInTail();
  }

  /** The second `$HOME` is the head of `$HOMEDIR`, so it is replaced too. */
  lemma ReplaceInTail()
    ensures ReplaceAll("/$HOMEDIR", "$HOME", "/h") == "//hDIR"
  {
    assert "/$HOMEDIR"[1..] == "$HOMEDIR";
    assert "$HOMEDIR"[5..] == "DIR";
    assert ReplaceAll("DIR", "$HOME", "/h") == "DIR";
    assert ReplaceAll("$HOMEDIR", "$HOME", "/h") == "/hDIR";
  }

  /**
   * `_resolve_env_vars`: rewrites the path until no `$NAME` is left or a
   * variable is unset or empty.
   */
  method ResolveEnvVars(line: string, env: Env) returns (r: Result<string, EnvError>)
    requires DollarFree(env)
    ensures r == Resolve(line, env)
  {
    var path := line;
    var m := FindVar(path);
    while m.Some?
      invariant m == FindVar(path)
      invariant Resolve(path, env) == Resolve(line, env)
      decreases Dollars(path)
    {
      var name := VarName(path, m.value);
      if name !in env {
        return Err(Unset(name));
      } else if env[name] == "" {
        return Err(Empty(name));
      }
      SubstituteShrinks(path, m.value, env);
      path := ReplaceAll(path, "$" + name, env[name]);
      m := FindVar(path);
    }
    return Ok(path);
  }
}
