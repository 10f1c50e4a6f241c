/**
 * The pure parts of `FindDownloadLocation`: how the constructor cleans up
 * its arguments, the fallback chain of `find`, `os.path.join`, the
 * three-valued piece verification and the name of the temporary directory.
 */
module Location {
  import opened Wrappers
  import opened Collections

  /** `os.sep` on POSIX. */
  const Sep: char := '/'

  /** `__project_name__`, the first part of every temporary directory name. */
  const ProjectName: string := "tofipa"

  datatype FindError =
    | NoLocations            // RuntimeError from the constructor
    | TorrentUnreadable(reason: string)   // FindError wrapping a torf error
    | UnknownKey(key: string)             // RuntimeError from `Combinator.lock`

  function Message(e: FindError): string
  {
    match e
    case NoLocations => "You must provide at least one potential download location"
    case TorrentUnreadable(reason) => reason
    case UnknownKey(key) => "Cannot exclude unknown key: " + key
  }

  // ---------------------------------------------------------------------------
  // Constructor arguments
  // ---------------------------------------------------------------------------

  /** `tuple(dict.fromkeys(locations))`: every location once, at its first occurrence. */
  function Dedup(s: seq<string>): (r: seq<string>)
    ensures Distinct(r)
    ensures forall x :: x in r <==> x in s
  {
    if s == [] then []
    else
      var d := Dedup(s[..|s| - 1]);
      if s[|s| - 1] in d then d else d + [s[|s| - 1]]
  }

  lemma IndexOfPrefix(s: seq<string>, n: nat, x: string)
    requires n <= |s| && x in s[..n]
    ensures IndexOf(s, x) == IndexOf(s[..n], x)
  {
    var i := IndexOf(s[..n], x);
    assert s[i] == x;
  }

  /** The locations keep the order of their first occurrences. */
  lemma {:induction false} DedupKeepsOrder(s: seq<string>)
    ensures forall i, j :: 0 <= i < j < |Dedup(s)| ==> IndexOf(s, Dedup(s)[i]) < IndexOf(s, Dedup(s)[j])
  {
    if s != [] {
      var init := s[..|s| - 1];
      var d := Dedup(init);
      DedupKeepsOrder(init);
      assert s[..|s| - 1] == init;
      forall x | x in d ensures IndexOf(s, x) == IndexOf(init, x) {
        IndexOfPrefix(s, |s| - 1, x);
      }
      if s[|s| - 1] !in d {
        assert IndexOf(s, s[|s| - 1]) == |s| - 1;
        forall x | x in d ensures IndexOf(init, x) < |s| - 1 {
        }
      }
    }
  }

  /** The first location given is the first location kept. */
  lemma DedupHead(s: seq<string>)
    requires s != []
    ensures Dedup(s) != [] && Dedup(s)[0] == s[0]
  {
    var r := Dedup(s);
    assert s[0] in r;
    DedupKeepsOrder(s);
    var j := IndexOf(r, s[0]);
    assert IndexOf(s, r[j]) == 0;
    assert IndexOf(s, r[0]) <= IndexOf(s, r[j]);
  }

  /** Locations that are already distinct are kept as they are. */
  lemma {:induction false} DedupOfDistinct(s: seq<string>)
    requires Distinct(s)
    ensures Dedup(s) == s
  {
    if s != [] {
      var init := s[..|s| - 1];
      assert Distinct(init);
      DedupOfDistinct(init);
      assert s[|s| - 1] !in init;
      assert init + [s[|s| - 1]] == s;
    }
  }

  lemma DedupIdempotent(s: seq<string>)
    ensures Dedup(Dedup(s)) == Dedup(s)
  {
    DedupOfDistinct(Dedup(s));
  }

  datatype Settings = Settings(locations: seq<string>, default: Option<string>)

  /**
   * The constructor's checks: duplicate locations are dropped, no location
   * at all is an error, and an empty default counts as no default.
   */
  function Configure(locations: seq<string>, default: Option<string>): (r: Result<Settings, FindError>)
    ensures r.Err? <==> locations == []
    ensures r.Err? ==> r.error == NoLocations
    ensures r.Ok? ==> r.value.locations == Dedup(locations) && r.value.locations != []
    ensures r.Ok? ==> (r.value.default.Some? <==> default.Some? && default.value != "")
    ensures r.Ok? && r.value.default.Some? ==> r.value.default == default
  {
    var locs := Dedup(locations);
    if locations == [] then
      Err(NoLocations)
    else
      assert locations[0] in locs;
      Ok(Settings(locs, if default.Some? && default.value != "" then default else None))
  }

  // ---------------------------------------------------------------------------
  // `find`: the fallback chain
  // ---------------------------------------------------------------------------

  /** The location `find` reports: the one found, else the default, else the first location. */
  function Choose(found: Option<string>, settings: Settings): (r: string)
    requires settings.locations != []
  {
    match (found, settings.default)
    case (Some(loc), _) => loc
    case (None, Some(d)) => d
    case (None, None) => settings.locations[0]
  }

  /**
   * `find` always answers with the location that was found, the default or
   * the first location the caller gave; nothing found and no default means
   * the first location given.
   */
  lemma ChooseFallsBack(found: Option<string>, locations: seq<string>, default: Option<string>)
    requires Configure(locations, default).Ok?
    ensures var r := Choose(found, Configure(locations, default).value);
      && (found.Some? ==> r == found.value)
      && (found.None? && default.Some? && default.value != "" ==> r == default.value)
      && (found.None? && (default.None? || default.value == "") ==> r == locations[0])
  {
    DedupHead(locations);
  }

  /** The answer is one of the given locations whenever the found one is. */
  lemma ChooseIsGiven(found: Option<string>, settings: Settings)
    requires settings.locations != []
    requires found.Some? ==> found.value in settings.locations
    ensures var r := Choose(found, settings);
      r in settings.locations || Some(r) == settings.default
  {
  }

  // ---------------------------------------------------------------------------
  // Paths
  // ---------------------------------------------------------------------------

  /** `os.path.join(a, b)` on POSIX. */
  function Join(a: string, b: string): (r: string)
    ensures |b| > 0 && b[0] == Sep ==> r == b
    ensures (|b| == 0 || b[0] != Sep) ==> |r| >= |a| + |b| && r[..|a|] == a && r[|r| - |b|..] == b
  {
    if |b| > 0 && b[0] == Sep then b
    else if a == [] || a[|a| - 1] == Sep then a + b
    else a + [Sep] + b
  }

  /** A relative path joined to a directory lies below that directory. */
  lemma JoinBelow(a: string, b: string)
    requires a != [] && b != [] && b[0] != Sep
    ensures var r := Join(a, b);
      |r| > |a| && r[..|a|] == a && (a[|a| - 1] == Sep || r[|a|] == Sep)
  {
  }

  // ---------------------------------------------------------------------------
  // `_verify_file`
  // ---------------------------------------------------------------------------

  /** What `verify_piece` answers: `True`, `False` or `None`. */
  datatype PieceCheck = Valid | Invalid | Unverifiable

  /** The verdict on a file: the first check that is not valid, else valid. */
  function Verdict(checks: seq<PieceCheck>): PieceCheck
  {
    if checks == [] then Valid
    else if checks[0] != Valid then checks[0]
    else Verdict(checks[1..])
  }

  /** Valid exactly when every piece is, so also when there is no piece to check. */
  lemma {:induction false} VerdictValid(checks: seq<PieceCheck>)
    ensures Verdict(checks) == Valid <==> forall i :: 0 <= i < |checks| ==> checks[i] == Valid
  {
    if checks != [] && checks[0] == Valid {
      VerdictValid(checks[1..]);
      assert forall i :: 1 <= i < |checks| ==> checks[i] == checks[1..][i - 1];
    }
  }

  /** Otherwise it is the answer of the first piece that is not valid. */
  lemma {:induction false} VerdictFirstFailure(checks: seq<PieceCheck>, n: nat)
    requires n < |checks| && checks[n] != Valid
    requires forall i :: 0 <= i < n ==> checks[i] == Valid
    ensures Verdict(checks) == checks[n]
  {
    if n > 0 {
      VerdictFirstFailure(checks[1..], n - 1);
    }
  }

  /**
   * `_verify_file`: checks the pieces in order and stops at the first one
   * that is invalid or unverifiable; `made` is how many checks it made.
   */
  method VerifyFile(checks: seq<PieceCheck>) returns (r: PieceCheck, ghost made: nat)
    ensures r == Verdict(checks)
    ensures made <= |checks|
    ensures r == Valid ==> made == |checks|
    ensures r != Valid ==> 0 < made && checks[made - 1] == r
    ensures forall i :: 0 <= i < made - 1 ==> checks[i] == Valid
  {
    var k := 0;
    while k < |checks|
      invariant 0 <= k <= |checks|
      invariant forall i :: 0 <= i < k ==> checks[i] == Valid
      invariant Verdict(checks) == Verdict(checks[k..])
    {
      assert checks[k..][1..] == checks[k + 1..];
      if checks[k] == Invalid {
        return Invalid, k + 1;
      } else if checks[k] == Unverifiable {
        return Unverifiable, k + 1;
      }
      k := k + 1;
    }
    return Valid, k;
  }

  // ---------------------------------------------------------------------------
  // `_temporary_directory`
  // ---------------------------------------------------------------------------

  /** `string.ascii_letters + string.digits + " ',.-"`. */
  predicate AllowedChar(c: char)
  {
    'a' <= c <= 'z' || 'A' <= c <= 'Z' || '0' <= c <= '9' || c in " ',.-"
  }

  /** The torrent name with every character outside the allowed set turned into `_`. */
  function Sanitize(name: string): (r: string)
    ensures |r| == |name|
    ensures forall i :: 0 <= i < |r| ==> r[i] == if AllowedChar(name[i]) then name[i] else '_'
  {
    if name == [] then [] else [if AllowedChar(name[0]) then name[0] else '_'] + Sanitize(name[1..])
  }

  /** Only allowed characters and `_` remain, so never a path separator. */
  lemma SanitizeIsSafe(name: string)
    ensures forall i :: 0 <= i < |Sanitize(name)| ==> AllowedChar(Sanitize(name)[i]) || Sanitize(name)[i] == '_'
    ensures Sep !in Sanitize(name)
  {
  }

  /** A name that is already safe is left alone, so sanitising twice changes nothing. */
  lemma SanitizeIdempotent(name: string)
    ensures (forall i :: 0 <= i < |name| ==> AllowedChar(name[i])) ==> Sanitize(name) == name
    ensures Sanitize(Sanitize(name)) == Sanitize(name)
  {
  }

  /** The `prefix` handed to `tempfile.TemporaryDirectory`. */
  function TempPrefix(torrentName: string): (r: string)
    ensures |r| == |ProjectName| + |torrentName| + 2
    ensures r[..|ProjectName| + 1] == ProjectName + "." && r[|r| - 1] == '.'
    ensures r[|ProjectName| + 1..|r| - 1] == Sanitize(torrentName)
  {
    ProjectName + "." + Sanitize(torrentName) + "."
  }

  /** The prefix is one path component: the temporary directory sits directly in the temporary root. */
  lemma TempPrefixIsOneComponent(torrentName: string)
    ensures Sep !in TempPrefix(torrentName)
  {
    SanitizeIsSafe(torrentName);
    assert Sep !in ProjectName + ".";
    assert TempPrefix(torrentName) == (ProjectName + ".") + Sanitize(torrentName) + ".";
  }
}
