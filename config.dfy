/**
 * `_config.Locations`: the list of download locations read from the
 * locations file and from the caller. Every entry is normalised: a path
 * ending in a separator and `*` stands for its subdirectories, `$NAME` is replaced by the
 * environment, and a path that exists but is not a directory is an error.
 * The filesystem and the file's lines are given as inputs.
 */
module Config {
  import opened Wrappers
  import opened Collections
  import opened EnvVars
  import Location

  /** `ConfigError` with its optional file path and line number. */
  datatype ConfigError = ConfigError(msg: string, filepath: Option<string>, lineNumber: Option<nat>)

  /** What the list operations raise: a `ConfigError` or an `IndexError`. */
  datatype LocationsError = Config(error: ConfigError) | IndexError(msg: string)

  /** `os.listdir` (its error text), `os.path.isdir` and `os.path.exists`. */
  datatype FileSystem = FileSystem(listDir: string -> Result<seq<string>, string>,
                                   isDir: string -> bool, present: string -> bool)

  /** An `OSError` from opening or reading the locations file. */
  datatype OsError = OsError(missing: bool, strerror: string, text: string)

  const IndexMessage := "list index out of range"
  const AssignmentMessage := "list assignment index out of range"

  // ---------------------------------------------------------------------------
  // `str.strip`
  // ---------------------------------------------------------------------------

  /** `str.isspace` for one character. */
  predicate IsSpace(c: char)
  {
    c == ' ' || '\t' <= c <= '\r' || '\U{1c}' <= c <= '\U{1f}' || c == '\U{85}' || c == '\U{a0}'
    || c == '\U{1680}' || '\U{2000}' <= c <= '\U{200a}' || c == '\U{2028}' || c == '\U{2029}'
    || c == '\U{202f}' || c == '\U{205f}' || c == '\U{3000}'
  }

  function StripStart(s: string): (i: nat)
    ensures i <= |s| && forall k :: 0 <= k < i ==> IsSpace(s[k])
    ensures i < |s| ==> !IsSpace(s[i])
  {
    if s != [] && IsSpace(s[0]) then 1 + StripStart(s[1..]) else 0
  }

  function StripEnd(s: string): (j: nat)
    ensures j <= |s| && forall k :: j <= k < |s| ==> IsSpace(s[k])
    ensures 0 < j ==> !IsSpace(s[j - 1])
  {
    if s != [] && IsSpace(s[|s| - 1]) then StripEnd(s[..|s| - 1]) else |s|
  }

  /** `line.strip()`: the line without whitespace at either end. */
  function Strip(s: string): (r: string)
    ensures r != [] ==> !IsSpace(r[0]) && !IsSpace(r[|r| - 1])
  {
    var i := StripStart(s);
    var j := StripEnd(s);
    if j <= i then [] else s[i..j]
  }

  /** Only whitespace is taken off, and only at the ends. */
  lemma StripIsSlice(s: string)
    ensures exists i, j :: (0 <= i <= j <= |s| && Strip(s) == s[i..j] &&
      (forall k :: 0 <= k < i ==> IsSpace(s[k])) && (forall k :: j <= k < |s| ==> IsSpace(s[k])))
  {
    var i := StripStart(s);
    var j := StripEnd(s);
    if j <= i {
      assert Strip(s) == s[i..i];
    } else {
      assert Strip(s) == s[i..j];
    }
  }

  /** A line of the locations file that names a location: not blank and not a comment. */
  predicate Kept(line: string)
  {
    var t := Strip(line);
    t != [] && t[0] != '#'
  }

  // ---------------------------------------------------------------------------
  // `_normalize`, as functions
  // ---------------------------------------------------------------------------

  /** The line ends in `<sep>*`. */
  predicate IsGlob(line: string)
  {
    |line| >= 2 && line[|line| - 2] == Location.Sep && line[|line| - 1] == '*'
  }

  /** An expanded path is kept when it is a directory or does not exist. */
  predicate Admitted(fs: FileSystem, path: string)
  {
    fs.isDir(path) || !fs.present(path)
  }

  predicate NotDirectory(fs: FileSystem, path: string)
  {
    fs.present(path) && !fs.isDir(path)
  }

  /** The subdirectories a line `<parent>` + separator + `*` stands for, in listing order. */
  function Expand(parent: string, names: seq<string>, fs: FileSystem): (r: seq<string>)
    ensures |r| <= |names|
  {
    if names == [] then []
    else
      var init := Expand(parent, names[..|names| - 1], fs);
      var p := Location.Join(parent, names[|names| - 1]);
      if Admitted(fs, p) then init + [p] else init
  }

  /** The expansion holds exactly the kept paths below the parent, one per listed entry. */
  lemma {:induction false} ExpandMembers(parent: string, names: seq<string>, fs: FileSystem)
    ensures forall x :: x in Expand(parent, names, fs) <==>
      exists n :: n in names && x == Location.Join(parent, n) && Admitted(fs, x)
  {
    if names != [] {
      var init := names[..|names| - 1];
      ExpandMembers(parent, init, fs);
      assert names == init + [names[|names| - 1]];
    }
  }

  /** Every path resolved, or the first path's error. */
  function ResolveAll(paths: seq<string>, env: Env): (r: Result<seq<string>, EnvError>)
    requires DollarFree(env)
    ensures r.Ok? ==> |r.value| == |paths| && forall i :: 0 <= i < |paths| ==> Resolve(paths[i], env) == Ok(r.value[i])
  {
    if paths == [] then Ok([])
    else
      var n := |paths| - 1;
      assert forall i :: 0 <= i < n ==> paths[..n][i] == paths[i];
      match ResolveAll(paths[..n], env)
      case Err(e) => Err(e)
      case Ok(init) =>
        match Resolve(paths[n], env)
        case Err(e) => Err(e)
        case Ok(p) => Ok(init + [p])
  }

  /** An error is the error of the first path that does not resolve. */
  lemma {:induction false} ResolveAllFirstError(paths: seq<string>, env: Env)
    requires DollarFree(env) && ResolveAll(paths, env).Err?
    ensures exists i :: (0 <= i < |paths| && Resolve(paths[i], env) == Err(ResolveAll(paths, env).error) &&
      forall j :: 0 <= j < i ==> Resolve(paths[j], env).Ok?)
  {
    var n := |paths| - 1;
    var front := paths[..n];
    assert forall i :: 0 <= i < n ==> front[i] == paths[i];
    if ResolveAll(front, env).Err? {
      ResolveAllFirstError(front, env);
    }
  }

  /** The first path that exists and is not a directory. */
  function FirstNotDirectory(paths: seq<string>, fs: FileSystem): (r: Option<string>)
    ensures r.Some? ==> r.value in paths && NotDirectory(fs, r.value)
    ensures r.None? <==> forall i :: 0 <= i < |paths| ==> !NotDirectory(fs, paths[i])
  {
    if paths == [] then None
    else
      var n := |paths| - 1;
      match FirstNotDirectory(paths[..n], fs)
      case Some(p) => Some(p)
      case None =>
        assert forall i :: 0 <= i < n ==> paths[..n][i] == paths[i];
        if NotDirectory(fs, paths[n]) then Some(paths[n]) else None
  }

  /** The paths a line stands for before resolution, or the listing error. */
  function Subdirs(line: string, fs: FileSystem): Result<seq<string>, string>
  {
    if IsGlob(line) then
      var parent := line[..|line| - 2];
      match fs.listDir(parent)
      case Err(msg) => Err("Failed to read subdirectories from " + parent + ": " + msg)
      case Ok(names) => Ok(Expand(parent, names, fs))
    else
      Ok([line])
  }

  /** The result of `_normalize`. */
  function Normalized(line: string, filepath: Option<string>, lineNumber: Option<nat>,
                      fs: FileSystem, env: Env): (r: Result<seq<string>, ConfigError>)
    requires DollarFree(env)
    ensures r.Err? ==> r.error.filepath == filepath && r.error.lineNumber == lineNumber
  {
    match Subdirs(line, fs)
    case Err(msg) => Err(ConfigError(msg, filepath, lineNumber))
    case Ok(subdirs) =>
      match ResolveAll(subdirs, env)
      case Err(e) => Err(ConfigError(Message(e), filepath, lineNumber))
      case Ok(resolved) =>
        match FirstNotDirectory(resolved, fs)
        case Some(p) => Err(ConfigError("Not a directory: " + p, filepath, lineNumber))
        case None => Ok(Sort(resolved))
  }

  /**
   * What `_normalize` hands back is sorted, holds no existing non-directory
   * and no `$NAME`, and is the resolved paths rearranged.
   */
  lemma NormalizedSorted(line: string, filepath: Option<string>, lineNumber: Option<nat>, fs: FileSystem, env: Env)
    requires DollarFree(env) && Normalized(line, filepath, lineNumber, fs, env).Ok?
    ensures var r := Normalized(line, filepath, lineNumber, fs, env).value;
      && Sorted(r)
      && Subdirs(line, fs).Ok? && ResolveAll(Subdirs(line, fs).value, env).Ok?
      && multiset(r) == multiset(ResolveAll(Subdirs(line, fs).value, env).value)
      && forall x :: x in r ==> !NotDirectory(fs, x) && FindVar(x).None?
  {
    var resolved := ResolveAll(Subdirs(line, fs).value, env).value;
    SortSortsAndPermutes(resolved);
    forall x | x in Sort(resolved) ensures !NotDirectory(fs, x) && FindVar(x).None? {
      assert x in multiset(resolved);
      var i :| 0 <= i < |resolved| && resolved[i] == x;
    }
  }

  /** A line without a separator and `*` is one location: the line resolved, unless that is a file. */
  lemma NormalizedPlain(line: string, filepath: Option<string>, lineNumber: Option<nat>, fs: FileSystem, env: Env)
    requires DollarFree(env) && !IsGlob(line)
    ensures var r := Normalized(line, filepath, lineNumber, fs, env);
      && (r.Ok? <==> Resolve(line, env).Ok? && !NotDirectory(fs, Resolve(line, env).value))
      && (r.Ok? ==> r.value == [Resolve(line, env).value])
      && (Resolve(line, env).Err? ==> r == Err(ConfigError(Message(Resolve(line, env).error), filepath, lineNumber)))
  {
    assert Subdirs(line, fs) == Ok([line]);
    assert [line][..0] == [] && [line][0] == line;
    assert ResolveAll([], env) == Ok([]);
    match Resolve(line, env)
    case Err(e) =>
      assert ResolveAll([line], env) == Err(e);
    case Ok(p) =>
      assert ResolveAll([line], env) == Ok([] + [p]);
      assert Sort([p]) == [p];
  }

  /** `x` is what a listed entry of `parent` that is kept resolves to. */
  predicate ListedAs(x: string, parent: string, names: seq<string>, fs: FileSystem, env: Env)
    requires DollarFree(env)
  {
    exists n :: n in names && Admitted(fs, Location.Join(parent, n)) && Resolve(Location.Join(parent, n), env) == Ok(x)
  }

  /**
   * A line `<parent>` + separator + `*` whose parent can be listed stands for
   * exactly the resolved paths of the listed entries that are directories or
   * do not exist.
   */
  lemma NormalizedGlob(line: string, filepath: Option<string>, lineNumber: Option<nat>, fs: FileSystem, env: Env)
    requires DollarFree(env) && IsGlob(line)
    requires Normalized(line, filepath, lineNumber, fs, env).Ok?
    ensures var parent := line[..|line| - 2];
      && fs.listDir(parent).Ok?
      && forall x :: x in Normalized(line, filepath, lineNumber, fs, env).value <==>
           ListedAs(x, parent, fs.listDir(parent).value, fs, env)
  {
    var parent := line[..|line| - 2];
    NormalizedSorted(line, filepath, lineNumber, fs, env);
    var names := fs.listDir(parent).value;
    var subdirs := Expand(parent, names, fs);
    assert Subdirs(line, fs) == Ok(subdirs);
    var resolved := ResolveAll(subdirs, env).value;
    var r := Normalized(line, filepath, lineNumber, fs, env).value;
    assert forall x :: x in r <==> x in resolved by {
      assert multiset(r) == multiset(resolved);
      forall x ensures x in r <==> x in resolved {
        assert x in r <==> x in multiset(r);
        assert x in resolved <==> x in multiset(resolved);
      }
    }
    ResolveAllMembers(subdirs, env);
    ExpandMembers(parent, names, fs);
    forall x | x in resolved ensures ListedAs(x, parent, names, fs, env) {
      var p :| p in subdirs && Resolve(p, env) == Ok(x);
      var n :| n in names && p == Location.Join(parent, n) && Admitted(fs, p);
    }
    forall x | ListedAs(x, parent, names, fs, env) ensures x in resolved {
      var n :| n in names && Admitted(fs, Location.Join(parent, n)) && Resolve(Location.Join(parent, n), env) == Ok(x);
      assert Location.Join(parent, n) in subdirs;
    }
  }

  /** The resolved paths are exactly what the paths resolve to. */
  lemma ResolveAllMembers(paths: seq<string>, env: Env)
    requires DollarFree(env) && ResolveAll(paths, env).Ok?
    ensures forall x :: x in ResolveAll(paths, env).value <==> exists p :: p in paths && Resolve(p, env) == Ok(x)
  {
    var rs := ResolveAll(paths, env).value;
    forall x ensures x in rs <==> exists p :: p in paths && Resolve(p, env) == Ok(x) {
      if x in rs {
        var i :| 0 <= i < |rs| && rs[i] == x;
        assert paths[i] in paths;
      }
      if exists p :: p in paths && Resolve(p, env) == Ok(x) {
        var p :| p in paths && Resolve(p, env) == Ok(x);
        var i :| 0 <= i < |paths| && paths[i] == p;
        assert rs[i] == x;
      }
    }
  }

  // ---------------------------------------------------------------------------
  // `_normalize`, as the source does it
  // ---------------------------------------------------------------------------

  /** The expansion loop: the listed entries that are directories or do not exist. */
  method ExpandListing(parent: string, names: seq<string>, fs: FileSystem) returns (subdirs: seq<string>)
    ensures subdirs == Expand(parent, names, fs)
  {
    subdirs := [];
    var i := 0;
    while i < |names|
      invariant 0 <= i <= |names|
      invariant subdirs == Expand(parent, names[..i], fs)
    {
      var path := Location.Join(parent, names[i]);
      assert names[..i + 1][..i] == names[..i];
      if fs.isDir(path) || !fs.present(path) {
        subdirs := subdirs + [path];
      }
      i := i + 1;
    }
    assert names[..|names|] == names;
  }

  /** The list comprehension over `_resolve_env_vars`, stopping at the first error. */
  method ResolveEach(subdirs: seq<string>, env: Env) returns (r: Result<seq<string>, EnvError>)
    requires DollarFree(env)
    ensures r == ResolveAll(subdirs, env)
  {
    var resolved := [];
    var i := 0;
    while i < |subdirs|
      invariant 0 <= i <= |subdirs|
      invariant ResolveAll(subdirs[..i], env) == Ok(resolved)
    {
      assert subdirs[..i + 1][..i] == subdirs[..i];
      var p := ResolveEnvVars(subdirs[i], env);
      if p.Err? {
        ResolveAllPrefixErr(subdirs, i + 1, env);
        return Err(p.error);
      }
      resolved := resolved + [p.value];
      i := i + 1;
    }
    assert subdirs[..|subdirs|] == subdirs;
    return Ok(resolved);
  }

  /** Once a prefix fails, the whole list fails with the same error. */
  lemma {:induction false} ResolveAllPrefixErr(paths: seq<string>, k: nat, env: Env)
    requires DollarFree(env) && k <= |paths| && ResolveAll(paths[..k], env).Err?
    ensures ResolveAll(paths, env) == ResolveAll(paths[..k], env)
    decreases |paths| - k
  {
    if k < |paths| {
      assert paths[..k + 1][..k] == paths[..k];
      ResolveAllPrefixErr(paths, k + 1, env);
    } else {
      assert paths[..k] == paths;
    }
  }

  /** The check for paths that exist but are not directories. */
  method CheckDirectories(paths: seq<string>, fs: FileSystem) returns (r: Option<string>)
    ensures r == FirstNotDirectory(paths, fs)
  {
    var i := 0;
    while i < |paths|
      invariant 0 <= i <= |paths|
      invariant FirstNotDirectory(paths[..i], fs).None?
    {
      assert paths[..i + 1][..i] == paths[..i];
      if fs.present(paths[i]) && !fs.isDir(paths[i]) {
        FirstNotDirectoryPrefix(paths, i + 1, fs);
        return Some(paths[i]);
      }
      i := i + 1;
    }
    assert paths[..|paths|] == paths;
    return None;
  }

  lemma {:induction false} FirstNotDirectoryPrefix(paths: seq<string>, k: nat, fs: FileSystem)
    requires k <= |paths| && FirstNotDirectory(paths[..k], fs).Some?
    ensures FirstNotDirectory(paths, fs) == FirstNotDirectory(paths[..k], fs)
    decreases |paths| - k
  {
    if k < |paths| {
      assert paths[..k + 1][..k] == paths[..k];
      FirstNotDirectoryPrefix(paths, k + 1, fs);
    } else {
      assert paths[..k] == paths;
    }
  }

  /** `_normalize`. */
  method Normalize(line: string, filepath: Option<string>, lineNumber: Option<nat>, fs: FileSystem, env: Env)
    returns (r: Result<seq<string>, ConfigError>)
    requires DollarFree(env)
    ensures r == Normalized(line, filepath, lineNumber, fs, env)
  {
    var subdirs;
    if IsGlob(line) {
      var parent := line[..|line| - 2];
      var listing := fs.listDir(parent);
      if listing.Err? {
        return Err(ConfigError("Failed to read subdirectories from " + parent + ": " + listing.error,
                               filepath, lineNumber));
      }
      subdirs := ExpandListing(parent, listing.value, fs);
    } else {
      subdirs := [line];
    }
    var resolved := ResolveEach(subdirs, env);
    if resolved.Err? {
      return Err(ConfigError(Message(resolved.error), filepath, lineNumber));
    }
    var bad := CheckDirectories(resolved.value, fs);
    if bad.Some? {
      return Err(ConfigError("Not a directory: " + bad.value, filepath, lineNumber));
    }
    return Ok(Sort(resolved.value));
  }

  // ---------------------------------------------------------------------------
  // `_read`
  // ---------------------------------------------------------------------------

  /** What line number `number` of the file names: nothing for a blank line or a comment. */
  function LineEntries(line: string, number: nat, filepath: string, fs: FileSystem, env: Env): (r: Result<seq<string>, ConfigError>)
    requires DollarFree(env)
    ensures !Kept(line) ==> r == Ok([])
    ensures r.Err? ==> r.error.filepath == Some(filepath) && r.error.lineNumber == Some(number)
  {
    if Kept(line) then Normalized(Strip(line), Some(filepath), Some(number), fs, env) else Ok([])
  }

  /** `x` is one of the locations line number `number` names. */
  predicate InLine(x: string, line: string, number: nat, filepath: string, fs: FileSystem, env: Env)
    requires DollarFree(env)
  {
    LineEntries(line, number, filepath, fs, env).Ok? && x in LineEntries(line, number, filepath, fs, env).value
  }

  /** Several lists of locations one after another, or the first error among them. */
  function Concat(rs: seq<Result<seq<string>, ConfigError>>): Result<seq<string>, ConfigError>
  {
    if rs == [] then Ok([])
    else
      var n := |rs| - 1;
      match Concat(rs[..n])
      case Err(e) => Err(e)
      case Ok(init) =>
        match rs[n]
        case Err(e) => Err(e)
        case Ok(more) => Ok(init + more)
  }

  /** Without an error every list is there, whole, and nothing else is. */
  lemma {:induction false} ConcatOk(rs: seq<Result<seq<string>, ConfigError>>)
    requires Concat(rs).Ok?
    ensures forall k :: 0 <= k < |rs| ==> rs[k].Ok?
    ensures forall x :: x in Concat(rs).value <==> exists k :: 0 <= k < |rs| && rs[k].Ok? && x in rs[k].value
  {
    if rs != [] {
      var n := |rs| - 1;
      var front := rs[..n];
      ConcatOk(front);
      assert forall k :: 0 <= k < n ==> front[k] == rs[k];
      var init := Concat(front).value;
      forall x ensures x in Concat(rs).value <==> exists k :: 0 <= k < |rs| && rs[k].Ok? && x in rs[k].value
      {
        if x in init {
          var k :| 0 <= k < n && front[k].Ok? && x in front[k].value;
          assert rs[k] == front[k];
        }
        if exists k :: 0 <= k < |rs| && rs[k].Ok? && x in rs[k].value {
          var k :| 0 <= k < |rs| && rs[k].Ok? && x in rs[k].value;
          if k < n {
            assert front[k] == rs[k];
          }
        }
      }
    }
  }

  /** An error is the first one among the lists. */
  lemma {:induction false} ConcatFirstError(rs: seq<Result<seq<string>, ConfigError>>)
    requires Concat(rs).Err?
    ensures exists k :: 0 <= k < |rs| && rs[k] == Err(Concat(rs).error) && forall j :: 0 <= j < k ==> rs[j].Ok?
  {
    var n := |rs| - 1;
    var front := rs[..n];
    assert forall k :: 0 <= k < n ==> front[k] == rs[k];
    if Concat(front).Err? {
      ConcatFirstError(front);
      var k :| 0 <= k < n && front[k] == Err(Concat(front).error) && forall j :: 0 <= j < k ==> front[j].Ok?;
      assert rs[k] == front[k];
    } else {
      ConcatOk(front);
    }
  }

  /** Once a prefix fails, the whole fails the same way. */
  lemma {:induction false} ConcatPrefixErr(rs: seq<Result<seq<string>, ConfigError>>, k: nat)
    requires k <= |rs| && Concat(rs[..k]).Err?
    ensures Concat(rs) == Concat(rs[..k])
    decreases |rs| - k
  {
    if k < |rs| {
      assert rs[..k + 1][..k] == rs[..k];
      ConcatPrefixErr(rs, k + 1);
    } else {
      assert rs[..k] == rs;
    }
  }

  /** The result for every line of the file, line `k + 1` at index `k`. */
  function LineResults(lines: seq<string>, filepath: string, fs: FileSystem, env: Env): (rs: seq<Result<seq<string>, ConfigError>>)
    requires DollarFree(env)
    ensures |rs| == |lines|
    ensures forall k {:trigger rs[k]} :: 0 <= k < |lines| ==> rs[k] == LineEntries(lines[k], k + 1, filepath, fs, env)
  {
    seq(|lines|, k requires 0 <= k < |lines| => LineEntries(lines[k], k + 1, filepath, fs, env))
  }

  /** The locations named by the file's lines. */
  function Entries(lines: seq<string>, filepath: string, fs: FileSystem, env: Env): Result<seq<string>, ConfigError>
    requires DollarFree(env)
  {
    Concat(LineResults(lines, filepath, fs, env))
  }

  /**
   * Every location comes from a kept line, normalised with its 1-based line
   * number, and every location of every kept line is there.
   */
  lemma EntriesFromKeptLines(lines: seq<string>, filepath: string, fs: FileSystem, env: Env)
    requires DollarFree(env) && Entries(lines, filepath, fs, env).Ok?
    ensures forall k :: 0 <= k < |lines| ==> LineEntries(lines[k], k + 1, filepath, fs, env).Ok?
    ensures forall x :: x in Entries(lines, filepath, fs, env).value <==>
      exists k :: 0 <= k < |lines| && Kept(lines[k]) && InLine(x, lines[k], k + 1, filepath, fs, env)
  {
    var rs := LineResults(lines, filepath, fs, env);
    ConcatOk(rs);
    forall k | 0 <= k < |lines| ensures LineEntries(lines[k], k + 1, filepath, fs, env).Ok? {
      assert rs[k].Ok?;
    }
    forall x ensures x in Concat(rs).value <==>
      exists k :: 0 <= k < |lines| && Kept(lines[k]) && InLine(x, lines[k], k + 1, filepath, fs, env)
    {
      if x in Concat(rs).value {
        var k :| 0 <= k < |rs| && rs[k].Ok? && x in rs[k].value;
        assert InLine(x, lines[k], k + 1, filepath, fs, env);
      }
      if exists k :: 0 <= k < |lines| && Kept(lines[k]) && InLine(x, lines[k], k + 1, filepath, fs, env) {
        var k :| 0 <= k < |lines| && Kept(lines[k]) && InLine(x, lines[k], k + 1, filepath, fs, env);
        assert rs[k].Ok? && x in rs[k].value;
      }
    }
  }

  /** A failing line is the first line that fails, a kept one, and the error names its 1-based number. */
  lemma EntriesFirstError(lines: seq<string>, filepath: string, fs: FileSystem, env: Env)
    requires DollarFree(env) && Entries(lines, filepath, fs, env).Err?
    ensures exists k :: (0 <= k < |lines| && Kept(lines[k]) &&
      LineEntries(lines[k], k + 1, filepath, fs, env) == Err(Entries(lines, filepath, fs, env).error) &&
      Entries(lines, filepath, fs, env).error.lineNumber == Some(k + 1) &&
      forall j :: 0 <= j < k ==> LineEntries(lines[j], j + 1, filepath, fs, env).Ok?)
  {
    var rs := LineResults(lines, filepath, fs, env);
    ConcatFirstError(rs);
    var k :| 0 <= k < |rs| && rs[k] == Err(Concat(rs).error) && forall j :: 0 <= j < k ==> rs[j].Ok?;
    assert rs[k] == LineEntries(lines[k], k + 1, filepath, fs, env);
    forall j | 0 <= j < k ensures LineEntries(lines[j], j + 1, filepath, fs, env).Ok? {
      assert rs[j].Ok?;
    }
  }

  /** The result of `_read` on a file that was read as `file`. */
  function ReadResult(file: Result<seq<string>, OsError>, filepath: string, defaultPath: string,
                      fs: FileSystem, env: Env): (r: Result<seq<string>, ConfigError>)
    requires DollarFree(env)
  {
    match file
    case Err(e) =>
      if e.missing && filepath == defaultPath then Ok([])
      else Err(ConfigError("Failed to read " + filepath + ": " + (if e.strerror != "" then e.strerror else e.text),
                           None, None))
    case Ok(lines) => Entries(lines, filepath, fs, env)
  }

  /**
   * Only the default locations file may be missing; any other failure to
   * read is reported with the file's path.
   */
  lemma ReadFailures(e: OsError, filepath: string, defaultPath: string, fs: FileSystem, env: Env)
    requires DollarFree(env)
    ensures var r := ReadResult(Err(e), filepath, defaultPath, fs, env);
      && (r.Ok? <==> e.missing && filepath == defaultPath)
      && (r.Ok? ==> r.value == [])
      && (r.Err? ==> |r.error.msg| > |"Failed to read "| + |filepath| && r.error.msg[..15] == "Failed to read "
                     && r.error.msg[15..15 + |filepath|] == filepath)
  {
  }

  /** `_read`. */
  method Read(file: Result<seq<string>, OsError>, filepath: string, defaultPath: string, fs: FileSystem, env: Env)
    returns (r: Result<seq<string>, ConfigError>)
    requires DollarFree(env)
    ensures r == ReadResult(file, filepath, defaultPath, fs, env)
  {
    if file.Err? {
      if file.error.missing && filepath == defaultPath {
        return Ok([]);
      }
      var msg := if file.error.strerror != "" then file.error.strerror else file.error.text;
      return Err(ConfigError("Failed to read " + filepath + ": " + msg, None, None));
    }
    var lines := file.value;
    ghost var rs := LineResults(lines, filepath, fs, env);
    var locations := [];
    var k := 0;
    while k < |lines|
      invariant 0 <= k <= |lines|
      invariant Concat(rs[..k]) == Ok(locations)
    {
      var next := ReadLine(lines, k, locations, filepath, fs, env);
      if next.Err? {
        ConcatPrefixErr(rs, k + 1);
        return Err(next.error);
      }
      locations := next.value;
      k := k + 1;
    }
    assert rs[..|lines|] == rs;
    return Ok(locations);
  }

  /** One pass of `_read`'s loop: line `k + 1` is stripped and, unless blank or a comment, normalised. */
  method ReadLine(lines: seq<string>, k: nat, locations: seq<string>, filepath: string, fs: FileSystem, env: Env)
    returns (r: Result<seq<string>, ConfigError>)
    requires DollarFree(env) && k < |lines|
    requires Concat(LineResults(lines, filepath, fs, env)[..k]) == Ok(locations)
    ensures r == Concat(LineResults(lines, filepath, fs, env)[..k + 1])
  {
    ghost var rs := LineResults(lines, filepath, fs, env);
    assert rs[..k + 1][..k] == rs[..k];
    assert rs[..k + 1][k] == LineEntries(lines[k], k + 1, filepath, fs, env);
    var line := Strip(lines[k]);
    if line != [] && line[0] != '#' {
      var more := Normalize(line, Some(filepath), Some(k + 1), fs, env);
      if more.Err? {
        return Err(more.error);
      }
      return Ok(locations + more.value);
    }
    assert locations + [] == locations;
    return Ok(locations);
  }

  // ---------------------------------------------------------------------------
  // Python list positions
  // ---------------------------------------------------------------------------

  /** Where `list.insert(index, x)` puts `x` in a list of length `n`: negative counts from the end, both ends clamp. */
  function InsertPosition(n: nat, index: int): (i: nat)
    ensures i <= n
    ensures 0 <= index <= n ==> i == index
    ensures index < 0 && 0 <= index + n ==> i == n + index
    ensures index > n ==> i == n
    ensures index + n < 0 ==> i == 0
  {
    if index < 0 then (if index + n < 0 then 0 else index + n)
    else if index > n then n
    else index
  }

  /** The element `list[index]` denotes, or None for `IndexError`. */
  function ItemPosition(n: nat, index: int): (r: Option<nat>)
    ensures r.None? <==> index >= n || index + n < 0
    ensures r.Some? ==> r.value < n && (if index < 0 then r.value == n + index else r.value == index)
  {
    if 0 <= index + n && index < n then Some(if index < 0 then n + index else index) else None
  }

  /** One end of `list[start:stop]`: None is the given default, negative counts from the end, clamped. */
  function SliceEnd(n: nat, bound: Option<int>, default: nat): (i: nat)
    requires default <= n
    ensures i <= n
    ensures bound.None? ==> i == default
    ensures bound.Some? ==> i == InsertPosition(n, bound.value)
  {
    match bound
    case None => default
    case Some(b) => InsertPosition(n, b)
  }

  /** `list[start:stop]` for assignment: the stop never lies before the start. */
  function SliceBounds(n: nat, start: Option<int>, stop: Option<int>): (b: (nat, nat))
    ensures b.0 <= b.1 <= n
  {
    var lo := SliceEnd(n, start, 0);
    var hi := SliceEnd(n, stop, n);
    (lo, if hi < lo then lo else hi)
  }

  // ---------------------------------------------------------------------------
  // The list operations, as functions
  // ---------------------------------------------------------------------------

  /** The path a single value becomes: the first of its normalised paths. */
  function First(value: string, fs: FileSystem, env: Env): (r: Result<string, LocationsError>)
    requires DollarFree(env)
  {
    match Normalized(value, None, None, fs, env)
    case Err(e) => Err(Config(e))
    case Ok(paths) => if paths == [] then Err(IndexError(IndexMessage)) else Ok(paths[0])
  }

  /**
   * A value stands for one location, the least of its normalised paths; a
   * a separator and `*` line that stands for no directory at all is an `IndexError`.
   */
  lemma FirstIsLeast(value: string, fs: FileSystem, env: Env)
    requires DollarFree(env) && Normalized(value, None, None, fs, env).Ok?
    ensures var paths := Normalized(value, None, None, fs, env).value;
      && (First(value, fs, env).Err? <==> paths == [])
      && (First(value, fs, env).Ok? ==> (First(value, fs, env).value in paths &&
            forall x :: x in paths ==> LessEq(First(value, fs, env).value, x)))
  {
    var paths := Normalized(value, None, None, fs, env).value;
    if paths != [] {
      NormalizedSorted(value, None, None, fs, env);
      forall x | x in paths ensures LessEq(paths[0], x) {
        SortedHeadIsLeast(paths, x);
      }
    }
  }

  /** `insert(index, value)`. */
  function Inserted(list: seq<string>, index: int, value: string, fs: FileSystem, env: Env): (r: Result<seq<string>, LocationsError>)
    requires DollarFree(env)
    ensures r.Err? <==> First(value, fs, env).Err?
    ensures r.Ok? ==> var i := InsertPosition(|list|, index);
      && |r.value| == |list| + 1 && r.value[i] == First(value, fs, env).value
      && (forall k :: 0 <= k < i ==> r.value[k] == list[k])
      && (forall k :: i < k < |r.value| ==> r.value[k] == list[k - 1])
  {
    match First(value, fs, env)
    case Err(e) => Err(e)
    case Ok(x) =>
      var i := InsertPosition(|list|, index);
      Ok(list[..i] + [x] + list[i..])
  }

  /** `list[index] = value` for a single value. */
  function Assigned(list: seq<string>, index: int, value: string, fs: FileSystem, env: Env): (r: Result<seq<string>, LocationsError>)
    requires DollarFree(env)
    ensures First(value, fs, env).Err? ==> r == Err(First(value, fs, env).error)
    ensures r.Ok? <==> First(value, fs, env).Ok? && ItemPosition(|list|, index).Some?
    ensures r.Ok? ==> var i := ItemPosition(|list|, index).value;
      && |r.value| == |list| && r.value[i] == First(value, fs, env).value
      && forall k :: 0 <= k < |list| && k != i ==> r.value[k] == list[k]
  {
    match First(value, fs, env)
    case Err(e) => Err(e)
    case Ok(x) =>
      match ItemPosition(|list|, index)
      case None => Err(IndexError(AssignmentMessage))
      case Some(i) => Ok(list[i := x])
  }

  /** `del list[index]`. */
  function Deleted(list: seq<string>, index: int): (r: Result<seq<string>, LocationsError>)
    ensures r.Err? <==> ItemPosition(|list|, index).None?
    ensures r.Ok? ==> var i := ItemPosition(|list|, index).value;
      && |r.value| + 1 == |list|
      && (forall k :: 0 <= k < i ==> r.value[k] == list[k])
      && (forall k :: i <= k < |r.value| ==> r.value[k] == list[k + 1])
  {
    match ItemPosition(|list|, index)
    case None => Err(IndexError(AssignmentMessage))
    case Some(i) => Ok(list[..i] + list[i + 1..])
  }

  /** Deleting what was just inserted gives the list back. */
  lemma InsertThenDelete(list: seq<string>, index: int, value: string, fs: FileSystem, env: Env)
    requires DollarFree(env) && Inserted(list, index, value, fs, env).Ok?
    ensures Deleted(Inserted(list, index, value, fs, env).value, InsertPosition(|list|, index)) == Ok(list)
  {
    var r := Inserted(list, index, value, fs, env).value;
    var i := InsertPosition(|list|, index);
    assert ItemPosition(|r|, i) == Some(i);
    assert r[..i] + r[i + 1..] == list;
  }

  /** Each value's normalised paths, in the order of the values. */
  function ValueResults(values: seq<string>, fs: FileSystem, env: Env): (rs: seq<Result<seq<string>, ConfigError>>)
    requires DollarFree(env)
    ensures |rs| == |values| && forall i :: 0 <= i < |values| ==> rs[i] == Normalized(values[i], None, None, fs, env)
  {
    seq(|values|, i requires 0 <= i < |values| => Normalized(values[i], None, None, fs, env))
  }

  /** All values' normalised paths, one value after another. */
  function NormalizedAll(values: seq<string>, fs: FileSystem, env: Env): Result<seq<string>, ConfigError>
    requires DollarFree(env)
  {
    Concat(ValueResults(values, fs, env))
  }

  /** `list[start:stop] = values`: every path of every value, in place of the slice. */
  function SliceAssigned(list: seq<string>, start: Option<int>, stop: Option<int>, values: seq<string>,
                         fs: FileSystem, env: Env): (r: Result<seq<string>, LocationsError>)
    requires DollarFree(env)
    ensures r.Err? <==> NormalizedAll(values, fs, env).Err?
    ensures r.Ok? ==> var (lo, hi) := SliceBounds(|list|, start, stop); var paths := NormalizedAll(values, fs, env).value;
      && |r.value| == |list| - (hi - lo) + |paths|
      && r.value[..lo] == list[..lo] && r.value[lo..lo + |paths|] == paths && r.value[lo + |paths|..] == list[hi..]
  {
    match NormalizedAll(values, fs, env)
    case Err(e) => Err(Config(e))
    case Ok(paths) =>
      var b := SliceBounds(|list|, start, stop);
      var r := list[..b.0] + paths + list[b.1..];
      assert r[..b.0] == list[..b.0] && r[b.0..b.0 + |paths|] == paths && r[b.0 + |paths|..] == list[b.1..];
      Ok(r)
  }

  /** Every path each value stands for is stored, not only the first. */
  lemma NormalizedAllKeepsEvery(values: seq<string>, fs: FileSystem, env: Env)
    requires DollarFree(env) && NormalizedAll(values, fs, env).Ok?
    ensures forall i :: 0 <= i < |values| ==> Normalized(values[i], None, None, fs, env).Ok?
    ensures forall x :: x in NormalizedAll(values, fs, env).value <==>
      exists i :: 0 <= i < |values| && x in Normalized(values[i], None, None, fs, env).value
  {
    ConcatOk(ValueResults(values, fs, env));
  }

  /** The first paths of the explicitly given locations, appended one by one. */
  function Heads(values: seq<string>, fs: FileSystem, env: Env): (r: Result<seq<string>, LocationsError>)
    requires DollarFree(env)
    ensures r.Ok? ==> |r.value| == |values| && forall i :: 0 <= i < |values| ==> First(values[i], fs, env) == Ok(r.value[i])
  {
    if values == [] then Ok([])
    else
      var n := |values| - 1;
      match Heads(values[..n], fs, env)
      case Err(e) => Err(e)
      case Ok(init) =>
        match First(values[n], fs, env)
        case Err(e) => Err(e)
        case Ok(x) => Ok(init + [x])
  }

  /** `append` is `insert` at the end. */
  lemma AppendIsInsertAtEnd(list: seq<string>, value: string, fs: FileSystem, env: Env)
    requires DollarFree(env)
    ensures match First(value, fs, env)
      case Ok(x) => Inserted(list, |list|, value, fs, env) == Ok(list + [x])
      case Err(e) => Inserted(list, |list|, value, fs, env) == Err(e)
  {
    if First(value, fs, env).Ok? {
      var x := First(value, fs, env).value;
      assert InsertPosition(|list|, |list|) == |list|;
      assert list[..|list|] + [x] + list[|list|..] == list + [x];
    }
  }

  /** What `Locations(*locations, filepath=...)` holds: the given locations first, then the file's. */
  function Initial(locations: seq<string>, file: Result<seq<string>, OsError>, filepath: string, defaultPath: string,
                   fs: FileSystem, env: Env): (r: Result<seq<string>, LocationsError>)
    requires DollarFree(env)
  {
    match Heads(locations, fs, env)
    case Err(e) => Err(e)
    case Ok(given) =>
      match ReadResult(file, filepath, defaultPath, fs, env)
      case Err(e) => Err(Config(e))
      case Ok(read) => Ok(given + read)
  }

  /**
   * The explicit locations come first, in the order given, each as its
   * first normalised path; the file's locations follow, all of them.
   */
  lemma InitialOrder(locations: seq<string>, file: Result<seq<string>, OsError>, filepath: string, defaultPath: string,
                     fs: FileSystem, env: Env)
    requires DollarFree(env) && Initial(locations, file, filepath, defaultPath, fs, env).Ok?
    ensures var r := Initial(locations, file, filepath, defaultPath, fs, env).value;
      && ReadResult(file, filepath, defaultPath, fs, env).Ok?
      && |r| == |locations| + |ReadResult(file, filepath, defaultPath, fs, env).value|
      && (forall i :: 0 <= i < |locations| ==> First(locations[i], fs, env) == Ok(r[i]))
      && r[|locations|..] == ReadResult(file, filepath, defaultPath, fs, env).value
  {
    var given := Heads(locations, fs, env).value;
    var r := Initial(locations, file, filepath, defaultPath, fs, env).value;
    assert r == given + ReadResult(file, filepath, defaultPath, fs, env).value;
    assert forall i :: 0 <= i < |locations| ==> r[i] == given[i];
  }

  // ---------------------------------------------------------------------------
  // The class
  // ---------------------------------------------------------------------------

  class Locations {
    const filepath: string
    /** `self._list`. */
    var list: seq<string>

    constructor (filepath: string)
      ensures this.filepath == filepath && list == []
    {
      this.filepath := filepath;
      list := [];
    }

    /**
     * `Locations(*locations, filepath=filepath)`: the given locations are
     * appended one by one, then the entries of the file.
     */
    static method Create(locations: seq<string>, file: Result<seq<string>, OsError>, filepath: string,
                         defaultPath: string, fs: FileSystem, env: Env)
      returns (r: Result<Locations, LocationsError>)
      requires DollarFree(env)
      ensures r.Ok? ==> fresh(r.value) && r.value.filepath == filepath
      ensures r.Ok? ==> Initial(locations, file, filepath, defaultPath, fs, env) == Ok(r.value.list)
      ensures r.Err? ==> Initial(locations, file, filepath, defaultPath, fs, env) == Err(r.error)
    {
      var l := new Locations(filepath);
      var extended := l.Extend(locations, fs, env);
      if extended.Err? {
        return Err(extended.error);
      }
      var read := Read(file, filepath, defaultPath, fs, env);
      if read.Err? {
        return Err(Config(read.error));
      }
      assert l.list == Heads(locations, fs, env).value;
      l.list := l.list + read.value;
      return Ok(l);
    }

    /**
     * `extend(values)`: each value is appended in turn; at the first value
     * that fails, the ones before it stay appended.
     */
    method Extend(values: seq<string>, fs: FileSystem, env: Env) returns (r: Result<(), LocationsError>)
      requires DollarFree(env)
      modifies this
      ensures r.Ok? ==> Heads(values, fs, env).Ok? && list == old(list) + Heads(values, fs, env).value
      ensures r.Err? ==> Heads(values, fs, env) == Err(r.error)
      ensures r.Err? ==> exists k :: (0 <= k < |values| && Heads(values[..k], fs, env).Ok? &&
        list == old(list) + Heads(values[..k], fs, env).value && First(values[k], fs, env) == Err(r.error))
    {
      var i := 0;
      while i < |values|
        invariant 0 <= i <= |values|
        invariant Heads(values[..i], fs, env).Ok? && list == old(list) + Heads(values[..i], fs, env).value
      {
        assert values[..i + 1][..i] == values[..i];
        ghost var before := list;
        var appended := Append(values[i], fs, env);
        if appended.Err? {
          assert First(values[i], fs, env) == Err(appended.error);
          assert Heads(values[..i + 1], fs, env) == Err(appended.error);
          HeadsPrefixErr(values, i + 1, fs, env);
          return appended;
        }
        assert list == old(list) + (Heads(values[..i], fs, env).value + [First(values[i], fs, env).value]);
        i := i + 1;
      }
      assert values[..|values|] == values;
      return Ok(());
    }

    /** `insert(index, value)`; on an error the list is unchanged. */
    method Insert(index: int, value: string, fs: FileSystem, env: Env) returns (r: Result<(), LocationsError>)
      requires DollarFree(env)
      modifies this
      ensures match Inserted(old(list), index, value, fs, env)
        case Ok(l) => r.Ok? && list == l
        case Err(e) => r == Err(e) && list == old(list)
    {
      var paths := Normalize(value, None, None, fs, env);
      if paths.Err? {
        return Err(Config(paths.error));
      }
      if paths.value == [] {
        return Err(IndexError(IndexMessage));
      }
      var i := InsertPosition(|list|, index);
      list := list[..i] + [paths.value[0]] + list[i..];
      return Ok(());
    }

    /** `append(value)`, which is `insert(len(self), value)`. */
    method Append(value: string, fs: FileSystem, env: Env) returns (r: Result<(), LocationsError>)
      requires DollarFree(env)
      modifies this
      ensures match First(value, fs, env)
        case Ok(x) => r.Ok? && list == old(list) + [x]
        case Err(e) => r == Err(e) && list == old(list)
    {
      AppendIsInsertAtEnd(list, value, fs, env);
      r := Insert(|list|, value, fs, env);
    }

    /** `self[index] = value` for one path; on an error the list is unchanged. */
    method SetItem(index: int, value: string, fs: FileSystem, env: Env) returns (r: Result<(), LocationsError>)
      requires DollarFree(env)
      modifies this
      ensures match Assigned(old(list), index, value, fs, env)
        case Ok(l) => r.Ok? && list == l
        case Err(e) => r == Err(e) && list == old(list)
    {
      var paths := Normalize(value, None, None, fs, env);
      if paths.Err? {
        return Err(Config(paths.error));
      }
      if paths.value == [] {
        return Err(IndexError(IndexMessage));
      }
      var i := ItemPosition(|list|, index);
      if i.None? {
        return Err(IndexError(AssignmentMessage));
      }
      list := list[i.value := paths.value[0]];
      return Ok(());
    }

    /** `self[start:stop] = values` for a list of paths; on an error the list is unchanged. */
    method SetSlice(start: Option<int>, stop: Option<int>, values: seq<string>, fs: FileSystem, env: Env)
      returns (r: Result<(), LocationsError>)
      requires DollarFree(env)
      modifies this
      ensures match SliceAssigned(old(list), start, stop, values, fs, env)
        case Ok(l) => r.Ok? && list == l
        case Err(e) => r == Err(e) && list == old(list)
    {
      ghost var rs := ValueResults(values, fs, env);
      var paths := [];
      var i := 0;
      while i < |values|
        invariant 0 <= i <= |values|
        invariant Concat(rs[..i]) == Ok(paths)
        invariant list == old(list)
      {
        assert rs[..i + 1][..i] == rs[..i];
        var more := Normalize(values[i], None, None, fs, env);
        if more.Err? {
          assert Concat(rs[..i + 1]) == Err(more.error);
          ConcatPrefixErr(rs, i + 1);
          return Err(Config(more.error));
        }
        paths := paths + more.value;
        i := i + 1;
      }
      assert rs[..|values|] == rs;
      var bounds := SliceBounds(|list|, start, stop);
      assert NormalizedAll(values, fs, env) == Ok(paths);
      list := list[..bounds.0] + paths + list[bounds.1..];
      return Ok(());
    }

    /** `del self[index]`; on an error the list is unchanged. */
    method DeleteItem(index: int) returns (r: Result<(), LocationsError>)
      modifies this
      ensures match Deleted(old(list), index)
        case Ok(l) => r.Ok? && list == l
        case Err(e) => r == Err(e) && list == old(list)
    {
      var i := ItemPosition(|list|, index);
      if i.None? {
        return Err(IndexError(AssignmentMessage));
      }
      list := list[..i.value] + list[i.value + 1..];
      return Ok(());
    }
  }

  lemma {:induction false} HeadsPrefixErr(values: seq<string>, k: nat, fs: FileSystem, env: Env)
    requires DollarFree(env) && k <= |values| && Heads(values[..k], fs, env).Err?
    ensures Heads(values, fs, env) == Heads(values[..k], fs, env)
    decreases |values| - k
  {
    if k < |values| {
      assert values[..k + 1][..k] == values[..k];
      HeadsPrefixErr(values, k + 1, fs, env);
    } else {
      assert values[..k] == values;
    }
  }
}
