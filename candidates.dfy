/**
 * The candidate collector of `FindDownloadLocation`: every file under the
 * configured locations whose size equals the size of a file in the torrent
 * becomes a candidate for that torrent file; each torrent file's candidates
 * are ranked by path similarity and only the three best are kept.
 *
 * The filesystem is an input: `stat` answers what `os.path.isdir` and
 * `os.path.getsize` would, and the walk below each location is given. The
 * similarity score is an opaque, totally ordered value supplied by `sim`.
 */
module Candidates {
  import opened Wrappers

  const Sep: char := '/'

  /** How many candidates a torrent file keeps. */
  const MaxCandidates: nat := 3

  /** A file the torrent declares: its path relative to the torrent's root, and its size. */
  datatype TorrentFile = TorrentFile(path: string, size: nat)

  /** What the filesystem says about a path: a directory, unreadable (OSError), or a file of some size. */
  datatype Stat = Directory | Unreadable | Regular(size: nat)

  /** A file found below a location: `(filepath, location)` as the walk yields it. */
  datatype Entry = Entry(filepath: string, location: string)

  datatype Candidate = Candidate(location: string, filepath: string, filepathRel: string, similarity: real)

  predicate DistinctPaths(files: seq<TorrentFile>)
  {
    forall i, j :: 0 <= i < j < |files| ==> files[i].path != files[j].path
  }

  /** `_get_file_size`: directories and unreadable paths have no size. */
  function FileSize(st: Stat): (r: Option<nat>)
    ensures r.Some? <==> st.Regular?
    ensures r.Some? ==> r.value == st.size
  {
    match st
    case Regular(n) => Some(n)
    case _ => None
  }

  /** `_is_size_match`. */
  predicate IsSizeMatch(f: TorrentFile, st: Stat)
  {
    FileSize(st) == Some(f.size)
  }

  /**
   * `_each_file`: a location that is not a directory is itself the only
   * file found there; otherwise every file the walk lists below it.
   */
  function EachFile(locations: seq<string>, isDir: string -> bool, walk: string -> seq<string>): (r: seq<Entry>)
    ensures forall e :: e in r ==> e.location in locations
    ensures forall e :: e in r && !isDir(e.location) ==> e.filepath == e.location
  {
    if locations == [] then []
    else
      var loc := locations[0];
      var here := if !isDir(loc) then [Entry(loc, loc)]
                  else seq(|walk(loc)|, i requires 0 <= i < |walk(loc)| => Entry(walk(loc)[i], loc));
      here + EachFile(locations[1..], isDir, walk)
  }

  /** `s.lstrip(os.sep)`. */
  function LStripSep(s: string): (r: string)
    ensures |r| <= |s| && r == s[|s| - |r|..]
    ensures forall i :: 0 <= i < |s| - |r| ==> s[i] == Sep
    ensures r == [] || r[0] != Sep
  {
    if s != [] && s[0] == Sep then LStripSep(s[1..]) else s
  }

  /** `filepath[len(location):].lstrip(os.sep)`: the path with its location in front removed. */
  function RelPath(filepath: string, location: string): string
  {
    LStripSep(if |location| <= |filepath| then filepath[|location|..] else "")
  }

  function MakeCandidate(e: Entry, f: TorrentFile, sim: (string, string) -> real): Candidate
  {
    var rel := RelPath(e.filepath, e.location);
    Candidate(e.location, e.filepath, rel, sim(rel, f.path))
  }

  /** Reference definition: every entry whose size matches `f`, in walk order. */
  function Matches(entries: seq<Entry>, f: TorrentFile, stat: string -> Stat, sim: (string, string) -> real): seq<Candidate>
  {
    if entries == [] then []
    else
      var last := entries[|entries| - 1];
      Matches(entries[..|entries| - 1], f, stat, sim) +
      (if IsSizeMatch(f, stat(last.filepath)) then [MakeCandidate(last, f, sim)] else [])
  }

  /** Index of the first entry whose size matches `f`, or the number of entries when none does. */
  function FirstHit(entries: seq<Entry>, f: TorrentFile, stat: string -> Stat): (r: nat)
    ensures r <= |entries|
    ensures forall i :: 0 <= i < r ==> !IsSizeMatch(f, stat(entries[i].filepath))
    ensures r < |entries| ==> IsSizeMatch(f, stat(entries[r].filepath))
  {
    if entries == [] then 0
    else if IsSizeMatch(f, stat(entries[0].filepath)) then 0
    else 1 + FirstHit(entries[1..], f, stat)
  }

  // ---------------------------------------------------------------------------
  // Ranking: a stable sort by non-increasing similarity, then the three best.
  // ---------------------------------------------------------------------------

  predicate SortedBySimilarity(s: seq<Candidate>)
  {
    forall i, j :: 0 <= i < j < |s| ==> s[i].similarity >= s[j].similarity
  }

  /** Inserts `c` after every element at least as similar, keeping equal ones in arrival order. */
  function Insert(c: Candidate, s: seq<Candidate>): seq<Candidate>
  {
    if s == [] then [c]
    else if s[0].similarity >= c.similarity then [s[0]] + Insert(c, s[1..])
    else [c] + s
  }

  /** `list.sort(key=similarity, reverse=True)`, which is stable. */
  function SortBySimilarity(s: seq<Candidate>): seq<Candidate>
  {
    if s == [] then [] else Insert(s[|s| - 1], SortBySimilarity(s[..|s| - 1]))
  }

  /** The ranked list a torrent file keeps: `del candidates[file][3:]` after the sort. */
  function Best(s: seq<Candidate>): seq<Candidate>
  {
    var sorted := SortBySimilarity(s);
    if |sorted| <= MaxCandidates then sorted else sorted[..MaxCandidates]
  }

  /** The elements of `s` with similarity `x`, in order. */
  function WithSimilarity(s: seq<Candidate>, x: real): seq<Candidate>
  {
    if s == [] then []
    else WithSimilarity(s[..|s| - 1], x) + (if s[|s| - 1].similarity == x then [s[|s| - 1]] else [])
  }

  lemma {:induction false} InsertBound(c: Candidate, s: seq<Candidate>, y: real)
    requires y >= c.similarity
    requires forall k :: 0 <= k < |s| ==> y >= s[k].similarity
    ensures forall k :: 0 <= k < |Insert(c, s)| ==> y >= Insert(c, s)[k].similarity
  {
    if s != [] && s[0].similarity >= c.similarity {
      InsertBound(c, s[1..], y);
    }
  }

  lemma {:induction false} InsertPermutes(c: Candidate, s: seq<Candidate>)
    ensures multiset(Insert(c, s)) == multiset(s) + multiset{c}
  {
    if s != [] && s[0].similarity >= c.similarity {
      InsertPermutes(c, s[1..]);
      assert s == [s[0]] + s[1..];
    }
  }

  lemma {:induction false} InsertSorted(c: Candidate, s: seq<Candidate>)
    requires SortedBySimilarity(s)
    ensures SortedBySimilarity(Insert(c, s))
  {
    if s != [] && s[0].similarity >= c.similarity {
      InsertSorted(c, s[1..]);
      InsertBound(c, s[1..], s[0].similarity);
    }
  }

  /** The ranking is ordered by similarity and is a permutation of its input. */
  lemma {:induction false} SortBySimilaritySorted(s: seq<Candidate>)
    ensures SortedBySimilarity(SortBySimilarity(s))
    ensures multiset(SortBySimilarity(s)) == multiset(s)
  {
    SortBySimilarityOrders(s);
    SortBySimilarityPermutes(s);
  }

  lemma {:induction false} SortBySimilarityOrders(s: seq<Candidate>)
    ensures SortedBySimilarity(SortBySimilarity(s))
  {
    if s != [] {
      SortBySimilarityOrders(s[..|s| - 1]);
      InsertSorted(s[|s| - 1], SortBySimilarity(s[..|s| - 1]));
    }
  }

  lemma {:induction false} SortBySimilarityPermutes(s: seq<Candidate>)
    ensures multiset(SortBySimilarity(s)) == multiset(s)
  {
    if s != [] {
      var init := s[..|s| - 1];
      SortBySimilarityPermutes(init);
      InsertPermutes(s[|s| - 1], SortBySimilarity(init));
      assert s == init + [s[|s| - 1]];
    }
  }

  lemma {:induction false} WithSimilarityAppend(a: seq<Candidate>, b: seq<Candidate>, x: real)
    ensures WithSimilarity(a + b, x) == WithSimilarity(a, x) + WithSimilarity(b, x)
  {
    if b != [] {
      WithSimilarityAppend(a, b[..|b| - 1], x);
      assert (a + b)[..|a + b| - 1] == a + b[..|b| - 1];
    } else {
      assert a + b == a;
    }
  }

  lemma {:induction false} WithSimilarityNone(s: seq<Candidate>, x: real)
    requires forall k :: 0 <= k < |s| ==> s[k].similarity != x
    ensures WithSimilarity(s, x) == []
  {
    if s != [] {
      WithSimilarityNone(s[..|s| - 1], x);
    }
  }

  lemma WithSimilarityOne(c: Candidate, x: real)
    ensures WithSimilarity([c], x) == if c.similarity == x then [c] else []
  {
    assert [c][..0] == [];
  }

  lemma {:induction false} InsertStable(c: Candidate, s: seq<Candidate>, x: real)
    requires SortedBySimilarity(s)
    ensures WithSimilarity(Insert(c, s), x) == WithSimilarity(s, x) + (if c.similarity == x then [c] else [])
  {
    var own := if c.similarity == x then [c] else [];
    WithSimilarityOne(c, x);
    if s == [] {
    } else if s[0].similarity >= c.similarity {
      var rest := Insert(c, s[1..]);
      InsertStable(c, s[1..], x);
      assert Insert(c, s) == [s[0]] + rest;
      WithSimilarityAppend([s[0]], rest, x);
      WithSimilarityAppend([s[0]], s[1..], x);
      assert [s[0]] + s[1..] == s;
    } else {
      assert Insert(c, s) == [c] + s;
      WithSimilarityAppend([c], s, x);
      if c.similarity == x {
        WithSimilarityNone(s, x);
      }
    }
  }

  /** The ranking is stable: candidates of equal similarity keep their walk order. */
  lemma {:induction false} SortBySimilarityStable(s: seq<Candidate>, x: real)
    ensures WithSimilarity(SortBySimilarity(s), x) == WithSimilarity(s, x)
  {
    if s != [] {
      var init := s[..|s| - 1];
      SortBySimilarityStable(init, x);
      SortBySimilaritySorted(init);
      InsertStable(s[|s| - 1], SortBySimilarity(init), x);
    }
  }

  lemma PrefixOfSortedIsTop(sorted: seq<Candidate>, n: nat, c: Candidate)
    requires SortedBySimilarity(sorted) && n <= |sorted|
    requires c in sorted && c !in sorted[..n]
    ensures forall k :: 0 <= k < n ==> c.similarity <= sorted[k].similarity
  {
    forall t | 0 <= t < n ensures sorted[t] != c {
      assert sorted[t] == sorted[..n][t];
    }
    var j :| 0 <= j < |sorted| && sorted[j] == c;
  }

  lemma PrefixMultiset(s: seq<Candidate>, n: nat)
    requires n <= |s|
    ensures multiset(s[..n]) <= multiset(s)
  {
    assert s == s[..n] + s[n..];
  }

  /**
   * What a torrent file keeps: at most three of its matches, ordered by
   * similarity, and no match left out is more similar than one kept.
   */
  lemma BestIsTopThree(s: seq<Candidate>)
    ensures |Best(s)| == if |s| < MaxCandidates then |s| else MaxCandidates
    ensures SortedBySimilarity(Best(s))
    ensures multiset(Best(s)) <= multiset(s)
    ensures forall c, k :: c in s && c !in Best(s) && 0 <= k < |Best(s)| ==> c.similarity <= Best(s)[k].similarity
  {
    var sorted := SortBySimilarity(s);
    SortBySimilaritySorted(s);
    assert |sorted| == |multiset(sorted)| == |multiset(s)| == |s|;
    var n := if |sorted| <= MaxCandidates then |sorted| else MaxCandidates;
    assert Best(s) == sorted[..n];
    PrefixMultiset(sorted, n);
    forall c, k | c in s && c !in Best(s) && 0 <= k < |Best(s)|
      ensures c.similarity <= Best(s)[k].similarity
    {
      assert c in multiset(sorted);
      PrefixOfSortedIsTop(sorted, n, c);
    }
  }

  /** Every match is a size-matching file found by the walk, with its relative path and score. */
  lemma {:induction false} MatchesAreSizeMatches(entries: seq<Entry>, f: TorrentFile, stat: string -> Stat,
                                                 sim: (string, string) -> real, c: Candidate)
    requires c in Matches(entries, f, stat, sim)
    ensures Entry(c.filepath, c.location) in entries
    ensures IsSizeMatch(f, stat(c.filepath))
    ensures c.filepathRel == RelPath(c.filepath, c.location)
    ensures c.similarity == sim(c.filepathRel, f.path)
  {
    var init := entries[..|entries| - 1];
    if c in Matches(init, f, stat, sim) {
      MatchesAreSizeMatches(init, f, stat, sim, c);
    }
  }

  /** A file has matches exactly when some entry of the walk has its size. */
  lemma {:induction false} MatchesNonEmpty(entries: seq<Entry>, f: TorrentFile, stat: string -> Stat, sim: (string, string) -> real)
    ensures Matches(entries, f, stat, sim) != [] <==> FirstHit(entries, f, stat) < |entries|
  {
    if entries != [] {
      var init := entries[..|entries| - 1];
      MatchesNonEmpty(init, f, stat, sim);
      var h := FirstHit(entries, f, stat);
      if h < |entries| - 1 {
        assert init[h] == entries[h];
        assert FirstHit(init, f, stat) <= h;
      } else {
        forall i | 0 <= i < |init| ensures !IsSizeMatch(f, stat(init[i].filepath)) {
          assert init[i] == entries[i];
        }
        assert FirstHit(init, f, stat) == |init|;
      }
    }
  }
}

module SizeMatching {
  import opened Wrappers
  import opened Collections
  import opened Candidates

  /**
   * Dictionary key order: torrent file `a` gets its key before file `b` when
   * its first size match comes earlier in the walk, or comes from the same
   * walked file and `a` comes earlier in the torrent.
   */
  ghost predicate KeyedBefore(entries: seq<Entry>, files: seq<TorrentFile>, stat: string -> Stat, a: nat, b: nat)
    requires a < |files| && b < |files|
  {
    var ha, hb := FirstHit(entries, files[a], stat), FirstHit(entries, files[b], stat);
    ha < hb || (ha == hb && a < b)
  }

  /** The dictionary keys `order` name torrent files `idx`, in key order. */
  ghost predicate KeyOrder(entries: seq<Entry>, files: seq<TorrentFile>, stat: string -> Stat,
                           order: seq<string>, idx: seq<nat>)
  {
    && |idx| == |order|
    && (forall a :: 0 <= a < |idx| ==> idx[a] < |files| && files[idx[a]].path == order[a])
    && (forall a, b :: 0 <= a < b < |idx| ==> KeyedBefore(entries, files, stat, idx[a], idx[b]))
  }

  lemma {:induction false} NoHitNoMatches(entries: seq<Entry>, f: TorrentFile, stat: string -> Stat,
                                          sim: (string, string) -> real, e: nat)
    requires e <= |entries|
    requires forall i :: 0 <= i < e ==> !IsSizeMatch(f, stat(entries[i].filepath))
    ensures Matches(entries[..e], f, stat, sim) == []
  {
    if e > 0 {
      assert entries[..e][..e - 1] == entries[..e - 1];
      NoHitNoMatches(entries, f, stat, sim, e - 1);
    }
  }

  /** Whether torrent file `u`'s first size match has been reached once entry `e` has met files `0..t-1`. */
  ghost predicate Reached(entries: seq<Entry>, files: seq<TorrentFile>, stat: string -> Stat, e: nat, t: nat, u: nat)
    requires u < |files|
  {
    var h := FirstHit(entries, files[u], stat);
    h < e || (h == e && u < t)
  }

  /** How many entries torrent file `u` has been compared with at that point. */
  function Upto(entries: seq<Entry>, e: nat, t: nat, u: nat): nat
  {
    if u < t && e < |entries| then e + 1 else if e <= |entries| then e else |entries|
  }

  /** The loop invariant of the collection: the dictionary holds exactly the matches seen so far. */
  ghost predicate Progress(files: seq<TorrentFile>, entries: seq<Entry>, stat: string -> Stat, sim: (string, string) -> real,
                           raw: map<string, seq<Candidate>>, order: seq<string>, idx: seq<nat>, e: nat, t: nat)
  {
    && (forall u :: 0 <= u < |files| ==> (files[u].path in raw <==> Reached(entries, files, stat, e, t, u)))
    && (forall u :: 0 <= u < |files| && files[u].path in raw ==>
          raw[files[u].path] == Matches(entries[..Upto(entries, e, t, u)], files[u], stat, sim))
    && (forall p :: p in order <==> p in raw)
    && Distinct(order) && KeyOrder(entries, files, stat, order, idx)
    && (forall a :: 0 <= a < |idx| ==> idx[a] < |files| && Reached(entries, files, stat, e, t, idx[a]))
  }

  /** `Matches` over one more entry. */
  lemma MatchesStep(entries: seq<Entry>, f: TorrentFile, stat: string -> Stat, sim: (string, string) -> real, e: nat)
    requires e < |entries|
    ensures Matches(entries[..e + 1], f, stat, sim) ==
      Matches(entries[..e], f, stat, sim) + (if IsSizeMatch(f, stat(entries[e].filepath)) then [MakeCandidate(entries[e], f, sim)] else [])
  {
    assert entries[..e + 1][..e] == entries[..e];
  }

  /** Before its first size match a torrent file has no matches; at it, exactly one. */
  lemma FirstMatch(entries: seq<Entry>, f: TorrentFile, stat: string -> Stat, sim: (string, string) -> real, e: nat)
    requires e < |entries| && IsSizeMatch(f, stat(entries[e].filepath))
    requires forall i :: 0 <= i < e ==> !IsSizeMatch(f, stat(entries[i].filepath))
    ensures FirstHit(entries, f, stat) == e
    ensures Matches(entries[..e + 1], f, stat, sim) == [MakeCandidate(entries[e], f, sim)]
  {
    NoHitNoMatches(entries, f, stat, sim, e);
    MatchesStep(entries, f, stat, sim, e);
  }

  /** Moving from file `t` to `t + 1` changes nothing for the other torrent files. */
  lemma OthersUnmoved(files: seq<TorrentFile>, entries: seq<Entry>, stat: string -> Stat, e: nat, t: nat)
    requires e < |entries| && t < |files|
    ensures forall u :: 0 <= u < |files| && u != t ==>
      Upto(entries, e, t, u) == Upto(entries, e, t + 1, u) &&
      (Reached(entries, files, stat, e, t, u) <==> Reached(entries, files, stat, e, t + 1, u))
  {
  }

  /** Entry `e` does not match file `t`: nothing to record. */
  lemma SkipPair(files: seq<TorrentFile>, entries: seq<Entry>, e: nat, t: nat, stat: string -> Stat, sim: (string, string) -> real,
                 raw: map<string, seq<Candidate>>, order: seq<string>, idx: seq<nat>)
    requires DistinctPaths(files) && e < |entries| && t < |files|
    requires !IsSizeMatch(files[t], stat(entries[e].filepath))
    requires Progress(files, entries, stat, sim, raw, order, idx, e, t)
    ensures Progress(files, entries, stat, sim, raw, order, idx, e, t + 1)
  {
    OthersUnmoved(files, entries, stat, e, t);
    MatchesStep(entries, files[t], stat, sim, e);
    assert FirstHit(entries, files[t], stat) != e;
  }

  /** Reaching is monotone: what file `t` had reached, file `t + 1` has too. */
  lemma ReachedGrows(files: seq<TorrentFile>, entries: seq<Entry>, stat: string -> Stat, e: nat, t: nat, idx: seq<nat>)
    requires forall a :: 0 <= a < |idx| ==> idx[a] < |files| && Reached(entries, files, stat, e, t, idx[a])
    ensures forall a :: 0 <= a < |idx| ==> idx[a] < |files| && Reached(entries, files, stat, e, t + 1, idx[a])
  {
  }

  /** Entry `e` matches file `t`, which already has a key: append. */
  lemma AppendPair(files: seq<TorrentFile>, entries: seq<Entry>, e: nat, t: nat, stat: string -> Stat, sim: (string, string) -> real,
                   raw: map<string, seq<Candidate>>, order: seq<string>, idx: seq<nat>)
    requires DistinctPaths(files) && e < |entries| && t < |files|
    requires IsSizeMatch(files[t], stat(entries[e].filepath)) && files[t].path in raw
    requires Progress(files, entries, stat, sim, raw, order, idx, e, t)
    ensures Progress(files, entries, stat, sim, raw[files[t].path := raw[files[t].path] + [MakeCandidate(entries[e], files[t], sim)]],
                     order, idx, e, t + 1)
  {
    var f := files[t];
    var raw' := raw[f.path := raw[f.path] + [MakeCandidate(entries[e], f, sim)]];
    AppendMap(files, entries, e, t, stat, sim, raw, order, idx);
    assert raw'.Keys == raw.Keys;
    ReachedGrows(files, entries, stat, e, t, idx);
  }

  /** The dictionary part of an append: only file `t`'s list grows. */
  lemma AppendMap(files: seq<TorrentFile>, entries: seq<Entry>, e: nat, t: nat, stat: string -> Stat, sim: (string, string) -> real,
                  raw: map<string, seq<Candidate>>, order: seq<string>, idx: seq<nat>)
    requires DistinctPaths(files) && e < |entries| && t < |files|
    requires IsSizeMatch(files[t], stat(entries[e].filepath)) && files[t].path in raw
    requires Progress(files, entries, stat, sim, raw, order, idx, e, t)
    ensures var raw' := raw[files[t].path := raw[files[t].path] + [MakeCandidate(entries[e], files[t], sim)]];
      && (forall u :: 0 <= u < |files| ==> (files[u].path in raw' <==> Reached(entries, files, stat, e, t + 1, u)))
      && (forall u :: 0 <= u < |files| && files[u].path in raw' ==>
            raw'[files[u].path] == Matches(entries[..Upto(entries, e, t + 1, u)], files[u], stat, sim))
  {
    var f := files[t];
    var raw' := raw[f.path := raw[f.path] + [MakeCandidate(entries[e], f, sim)]];
    OthersUnmoved(files, entries, stat, e, t);
    MatchesStep(entries, f, stat, sim, e);
    assert Reached(entries, files, stat, e, t, t);
    assert Upto(entries, e, t, t) == e && Upto(entries, e, t + 1, t) == e + 1;
    forall u | 0 <= u < |files| && u != t
      ensures files[u].path in raw' <==> Reached(entries, files, stat, e, t + 1, u)
      ensures files[u].path in raw' ==>
        raw'[files[u].path] == Matches(entries[..Upto(entries, e, t + 1, u)], files[u], stat, sim)
    {
      assert files[u].path != f.path;
    }
  }

  /** The dictionary part of a new key: only file `t` gains an entry. */
  lemma NewKeyMap(files: seq<TorrentFile>, entries: seq<Entry>, e: nat, t: nat, stat: string -> Stat, sim: (string, string) -> real,
                  raw: map<string, seq<Candidate>>, order: seq<string>, idx: seq<nat>)
    requires DistinctPaths(files) && e < |entries| && t < |files|
    requires IsSizeMatch(files[t], stat(entries[e].filepath)) && files[t].path !in raw
    requires Progress(files, entries, stat, sim, raw, order, idx, e, t)
    ensures var raw' := raw[files[t].path := [MakeCandidate(entries[e], files[t], sim)]];
      && (forall u :: 0 <= u < |files| ==> (files[u].path in raw' <==> Reached(entries, files, stat, e, t + 1, u)))
      && (forall u :: 0 <= u < |files| && files[u].path in raw' ==>
            raw'[files[u].path] == Matches(entries[..Upto(entries, e, t + 1, u)], files[u], stat, sim))
  {
    var f := files[t];
    var raw' := raw[f.path := [MakeCandidate(entries[e], f, sim)]];
    OthersUnmoved(files, entries, stat, e, t);
    assert !Reached(entries, files, stat, e, t, t);
    FirstMatch(entries, f, stat, sim, e);
    assert Upto(entries, e, t + 1, t) == e + 1;
    assert Reached(entries, files, stat, e, t + 1, t);
    forall u | 0 <= u < |files| && u != t
      ensures files[u].path in raw' <==> Reached(entries, files, stat, e, t + 1, u)
      ensures files[u].path in raw' ==>
        raw'[files[u].path] == Matches(entries[..Upto(entries, e, t + 1, u)], files[u], stat, sim)
    {
      assert files[u].path != f.path;
    }
  }

  /** The order part of a new key: file `t` comes after every key so far. */
  lemma NewKeyOrder(files: seq<TorrentFile>, entries: seq<Entry>, e: nat, t: nat, stat: string -> Stat, sim: (string, string) -> real,
                    raw: map<string, seq<Candidate>>, order: seq<string>, idx: seq<nat>)
    requires DistinctPaths(files) && e < |entries| && t < |files|
    requires IsSizeMatch(files[t], stat(entries[e].filepath)) && files[t].path !in raw
    requires Progress(files, entries, stat, sim, raw, order, idx, e, t)
    ensures Distinct(order + [files[t].path])
    ensures KeyOrder(entries, files, stat, order + [files[t].path], idx + [t])
    ensures forall a :: 0 <= a < |idx + [t]| ==> (idx + [t])[a] < |files| && Reached(entries, files, stat, e, t + 1, (idx + [t])[a])
  {
    var order', idx' := order + [files[t].path], idx + [t];
    assert FirstHit(entries, files[t], stat) == e;
    forall a | 0 <= a < |idx'|
      ensures idx'[a] < |files| && files[idx'[a]].path == order'[a]
      ensures Reached(entries, files, stat, e, t + 1, idx'[a])
    {
      if a < |idx| {
        assert Reached(entries, files, stat, e, t, idx[a]);
      }
    }
    forall a, b | 0 <= a < b < |idx'|
      ensures KeyedBefore(entries, files, stat, idx'[a], idx'[b])
    {
      if b == |idx| {
        assert Reached(entries, files, stat, e, t, idx[a]);
      }
    }
    forall i, j | 0 <= i < j < |order'|
      ensures order'[i] != order'[j]
    {
      if j == |order| {
        assert order[i] in raw;
      }
    }
  }

  /** Entry `e` is file `t`'s first match: a new key at the end of the order. */
  lemma NewKeyPair(files: seq<TorrentFile>, entries: seq<Entry>, e: nat, t: nat, stat: string -> Stat, sim: (string, string) -> real,
                   raw: map<string, seq<Candidate>>, order: seq<string>, idx: seq<nat>)
    requires DistinctPaths(files) && e < |entries| && t < |files|
    requires IsSizeMatch(files[t], stat(entries[e].filepath)) && files[t].path !in raw
    requires Progress(files, entries, stat, sim, raw, order, idx, e, t)
    ensures Progress(files, entries, stat, sim, raw[files[t].path := [MakeCandidate(entries[e], files[t], sim)]],
                     order + [files[t].path], idx + [t], e, t + 1)
  {
    NewKeyMap(files, entries, e, t, stat, sim, raw, order, idx);
    NewKeyOrder(files, entries, e, t, stat, sim, raw, order, idx);
  }

  /** One walked file against one torrent file: the body of the inner loop. */
  method AddPair(files: seq<TorrentFile>, entries: seq<Entry>, e: nat, t: nat, stat: string -> Stat, sim: (string, string) -> real,
                 raw: map<string, seq<Candidate>>, order: seq<string>, ghost idx: seq<nat>)
    returns (raw': map<string, seq<Candidate>>, order': seq<string>, ghost idx': seq<nat>)
    requires DistinctPaths(files) && e < |entries| && t < |files|
    requires Progress(files, entries, stat, sim, raw, order, idx, e, t)
    ensures Progress(files, entries, stat, sim, raw', order', idx', e, t + 1)
  {
    var entry, file := entries[e], files[t];
    raw', order', idx' := raw, order, idx;
    if !IsSizeMatch(file, stat(entry.filepath)) {
      SkipPair(files, entries, e, t, stat, sim, raw, order, idx);
    } else if file.path in raw {
      AppendPair(files, entries, e, t, stat, sim, raw, order, idx);
      raw' := raw[file.path := raw[file.path] + [MakeCandidate(entry, file, sim)]];
    } else {
      NewKeyPair(files, entries, e, t, stat, sim, raw, order, idx);
      raw' := raw[file.path := [MakeCandidate(entry, file, sim)]];
      order' := order + [file.path];
      idx' := idx + [t];
    }
  }

  lemma NextEntry(files: seq<TorrentFile>, entries: seq<Entry>, stat: string -> Stat, sim: (string, string) -> real,
                  raw: map<string, seq<Candidate>>, order: seq<string>, idx: seq<nat>, e: nat)
    requires e < |entries|
    requires Progress(files, entries, stat, sim, raw, order, idx, e, |files|)
    ensures Progress(files, entries, stat, sim, raw, order, idx, e + 1, 0)
  {
    assert forall u :: 0 <= u < |files| ==>
      Upto(entries, e, |files|, u) == Upto(entries, e + 1, 0, u) &&
      (Reached(entries, files, stat, e, |files|, u) <==> Reached(entries, files, stat, e + 1, 0, u));
  }

  /** Before the first entry nothing has been recorded. */
  lemma Start(files: seq<TorrentFile>, entries: seq<Entry>, stat: string -> Stat, sim: (string, string) -> real)
    ensures Progress(files, entries, stat, sim, map[], [], [], 0, 0)
  {
  }

  /** After the last entry the invariant is the collection's postcondition. */
  lemma Finished(files: seq<TorrentFile>, entries: seq<Entry>, stat: string -> Stat, sim: (string, string) -> real,
                 raw: map<string, seq<Candidate>>, order: seq<string>, idx: seq<nat>)
    requires Progress(files, entries, stat, sim, raw, order, idx, |entries|, 0)
    ensures forall t :: 0 <= t < |files| ==> (files[t].path in raw <==> FirstHit(entries, files[t], stat) < |entries|)
    ensures forall t :: 0 <= t < |files| && files[t].path in raw ==> raw[files[t].path] == Matches(entries, files[t], stat, sim)
  {
    assert entries[..|entries|] == entries;
    forall u | 0 <= u < |files|
      ensures Upto(entries, |entries|, 0, u) == |entries|
      ensures Reached(entries, files, stat, |entries|, 0, u) <==> FirstHit(entries, files[u], stat) < |entries|
    {
    }
  }

  /** One walked file against every torrent file, in torrent order: the inner loop. */
  method AddEntry(files: seq<TorrentFile>, entries: seq<Entry>, e: nat, stat: string -> Stat, sim: (string, string) -> real,
                  raw: map<string, seq<Candidate>>, order: seq<string>, ghost idx: seq<nat>)
    returns (raw': map<string, seq<Candidate>>, order': seq<string>, ghost idx': seq<nat>)
    requires DistinctPaths(files) && e < |entries|
    requires Progress(files, entries, stat, sim, raw, order, idx, e, 0)
    ensures Progress(files, entries, stat, sim, raw', order', idx', e + 1, 0)
  {
    raw', order', idx' := raw, order, idx;
    var t := 0;
    while t < |files|
      invariant 0 <= t <= |files|
      invariant Progress(files, entries, stat, sim, raw', order', idx', e, t)
    {
      raw', order', idx' := AddPair(files, entries, e, t, stat, sim, raw', order', idx');
      t := t + 1;
    }
    NextEntry(files, entries, stat, sim, raw', order', idx', e);
  }

  /** The first half of `_get_size_matching_candidates`: every size match, per torrent file, in walk order. */
  method CollectMatches(files: seq<TorrentFile>, entries: seq<Entry>, stat: string -> Stat, sim: (string, string) -> real)
    returns (raw: map<string, seq<Candidate>>, order: seq<string>, ghost idx: seq<nat>)
    requires DistinctPaths(files)
    ensures forall t :: 0 <= t < |files| ==> (files[t].path in raw <==> FirstHit(entries, files[t], stat) < |entries|)
    ensures forall t :: 0 <= t < |files| && files[t].path in raw ==> raw[files[t].path] == Matches(entries, files[t], stat, sim)
    ensures forall p :: p in order <==> p in raw
    ensures Distinct(order) && KeyOrder(entries, files, stat, order, idx)
  {
    raw, order, idx := map[], [], [];
    Start(files, entries, stat, sim);
    for e := 0 to |entries|
      invariant Progress(files, entries, stat, sim, raw, order, idx, e, 0)
    {
      raw, order, idx := AddEntry(files, entries, e, stat, sim, raw, order, idx);
    }
    Finished(files, entries, stat, sim, raw, order, idx);
  }

  /** The second half: `sort` by similarity and `del [3:]` for every key. */
  method RankAll(raw: map<string, seq<Candidate>>, order: seq<string>) returns (cands: map<string, seq<Candidate>>)
    requires forall p :: p in order <==> p in raw
    ensures cands.Keys == raw.Keys
    ensures forall p :: p in cands ==> cands[p] == Best(raw[p])
  {
    cands := raw;
    var k := 0;
    while k < |order|
      invariant 0 <= k <= |order|
      invariant cands.Keys == raw.Keys
      invariant forall p :: p in cands ==> cands[p] == if p in order[..k] then Best(raw[p]) else raw[p]
    {
      var file := order[k];
      cands := cands[file := Best(raw[file])];
      assert order[..k + 1] == order[..k] + [file];
      k := k + 1;
    }
    assert order[..k] == order;
  }

  /**
   * `_get_size_matching_candidates`: each torrent file with at least one
   * size match maps to its three best matches by similarity; the keys come in
   * the order the walk first matched them.
   */
  method GetSizeMatchingCandidates(files: seq<TorrentFile>, entries: seq<Entry>, stat: string -> Stat, sim: (string, string) -> real)
    returns (cands: map<string, seq<Candidate>>, order: seq<string>, ghost idx: seq<nat>)
    requires DistinctPaths(files)
    ensures forall t :: 0 <= t < |files| ==> (files[t].path in cands <==> FirstHit(entries, files[t], stat) < |entries|)
    ensures forall p :: p in cands ==> exists t :: 0 <= t < |files| && files[t].path == p
    ensures forall t :: 0 <= t < |files| && files[t].path in cands ==> cands[files[t].path] == Best(Matches(entries, files[t], stat, sim))
    ensures forall p :: p in order <==> p in cands
    ensures Distinct(order) && KeyOrder(entries, files, stat, order, idx)
  {
    var raw;
    raw, order, idx := CollectMatches(files, entries, stat, sim);
    cands := RankAll(raw, order);
    forall p | p in cands ensures exists t :: 0 <= t < |files| && files[t].path == p {
      var a :| 0 <= a < |order| && order[a] == p;
      assert files[idx[a]].path == p;
    }
  }
}
