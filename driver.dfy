/**
 * The matching driver of `FindDownloadLocation`: it walks the assignments
 * the `Combinator` hands out, verifies each file of an assignment that is not
 * confirmed yet, remembers the first confirmed location, plans one hard link
 * per confirmed file and stops as soon as every torrent file is confirmed.
 *
 * Piece checks are an input: `checks(file, filepath)` is the answer of
 * `verify_piece` for each piece of torrent file `file` when `filepath` is
 * linked in for it. The model assumes that these answers depend only on the
 * file and its candidate, not on the other files of the assignment: the
 * pieces checked are the ones from the second to the second-to-last, and a
 * piece that also covers a neighbouring file is taken to be decided by this
 * file's candidate alone.
 */
module Download {
  import opened Wrappers
  import opened Collections
  import opened Candidates
  import opened SizeMatching
  import opened Location
  import C = Combinator
  import O = Odometer

  datatype Torrent = Torrent(name: string, files: seq<TorrentFile>)

  type Checks = (string, string) -> seq<PieceCheck>

  /** `_verify_file(file, ...)` is true: the candidate is the file. */
  predicate Accepts(checks: Checks, file: string, c: Candidate)
  {
    Verdict(checks(file, c.filepath)) == Valid
  }

  /** The location of the first verification that succeeded, if any. */
  function FirstFound(log: seq<(string, Candidate)>, checks: Checks): Option<string>
  {
    if log == [] then None
    else
      var prev := FirstFound(log[..|log| - 1], checks);
      var last := log[|log| - 1];
      if prev.Some? then prev
      else if Accepts(checks, last.0, last.1) then Some(last.1.location)
      else None
  }

  /** How one pass of the search ends. */
  datatype Outcome = Continue | Done | Failed(key: string)

  /** What the search has built so far: `links_to_create` in insertion order and `download_location`. */
  datatype Search = Search(links: map<string, (string, string)>, linkOrder: seq<string>, location: Option<string>)

  /** Only candidates are verified, and a confirmed file is never verified again. */
  ghost predicate LogOk(cands: map<string, seq<Candidate>>, checks: Checks, log: seq<(string, Candidate)>)
  {
    && (forall i :: 0 <= i < |log| ==> log[i].0 in cands && log[i].1 in cands[log[i].0])
    && (forall i, j :: 0 <= i < j < |log| && log[i].0 == log[j].0 ==> !Accepts(checks, log[i].0, log[i].1))
  }

  /** The links are exactly the accepted verifications; `at` says which one confirmed each file. */
  ghost predicate LinksOk(checks: Checks, s: Search, log: seq<(string, Candidate)>, at: map<string, nat>)
  {
    && at.Keys == s.links.Keys
    && (forall i :: 0 <= i < |log| && Accepts(checks, log[i].0, log[i].1) ==> log[i].0 in s.links)
    && (forall f :: f in s.links ==>
          at[f] < |log| && log[at[f]].0 == f && Accepts(checks, f, log[at[f]].1) &&
          s.links[f].0 == log[at[f]].1.filepath)
    && Distinct(s.linkOrder) && (forall f :: f in s.linkOrder <==> f in s.links)
  }

  /** The download location is the first confirmed one and every target lies in it. */
  ghost predicate TargetsOk(checks: Checks, s: Search, log: seq<(string, Candidate)>)
  {
    && s.location == FirstFound(log, checks)
    && (forall f :: f in s.links ==> s.location.Some? && s.links[f].1 == Join(s.location.value, f))
  }

  /** The bookkeeping the driver keeps about the verifications `log` made so far. */
  ghost predicate Consistent(cands: map<string, seq<Candidate>>, checks: Checks, s: Search,
                             log: seq<(string, Candidate)>, at: map<string, nat>)
  {
    LogOk(cands, checks, log) && LinksOk(checks, s, log, at) && TargetsOk(checks, s, log)
  }

  lemma FirstFoundStep(log: seq<(string, Candidate)>, x: (string, Candidate), checks: Checks)
    ensures FirstFound(log + [x], checks) ==
      if FirstFound(log, checks).Some? then FirstFound(log, checks)
      else if Accepts(checks, x.0, x.1) then Some(x.1.location) else None
  {
    assert (log + [x])[..|log|] == log;
  }

  /** A verification that fails changes nothing but the log. */
  lemma RejectKeeps(file: string, cand: Candidate, cands: map<string, seq<Candidate>>, checks: Checks,
                    s: Search, log: seq<(string, Candidate)>, at: map<string, nat>)
    requires file in cands && cand in cands[file] && file !in s.links
    requires !Accepts(checks, file, cand)
    requires Consistent(cands, checks, s, log, at)
    ensures Consistent(cands, checks, s, log + [(file, cand)], at)
  {
    var log' := log + [(file, cand)];
    FirstFoundStep(log, (file, cand), checks);
    forall i, j | 0 <= i < j < |log'| && log'[i].0 == log'[j].0
      ensures !Accepts(checks, log'[i].0, log'[i].1)
    {
      if j == |log| {
        assert log[i].0 == file;
      }
    }
    forall f | f in s.links
      ensures at[f] < |log'| && log'[at[f]] == log[at[f]]
    {
    }
  }

  /** The search after a successful verification of `cand` for `file`. */
  function Confirmed(s: Search, file: string, cand: Candidate): Search
  {
    var location := if s.location.None? then Some(cand.location) else s.location;
    Search(s.links[file := (cand.filepath, Join(location.value, file))], s.linkOrder + [file], location)
  }

  lemma AcceptLog(file: string, cand: Candidate, cands: map<string, seq<Candidate>>, checks: Checks,
                  s: Search, log: seq<(string, Candidate)>, at: map<string, nat>)
    requires file in cands && cand in cands[file] && file !in s.links
    requires LogOk(cands, checks, log) && LinksOk(checks, s, log, at)
    ensures LogOk(cands, checks, log + [(file, cand)])
  {
    var log' := log + [(file, cand)];
    forall i, j | 0 <= i < j < |log'| && log'[i].0 == log'[j].0
      ensures !Accepts(checks, log'[i].0, log'[i].1)
    {
      if j == |log| {
        assert log[i].0 == file;
      }
    }
  }

  lemma AcceptLinks(file: string, cand: Candidate, checks: Checks,
                    s: Search, log: seq<(string, Candidate)>, at: map<string, nat>)
    requires file !in s.links && Accepts(checks, file, cand)
    requires LinksOk(checks, s, log, at)
    ensures LinksOk(checks, Confirmed(s, file, cand), log + [(file, cand)], at[file := |log|])
  {
    var log' := log + [(file, cand)];
    var s', at' := Confirmed(s, file, cand), at[file := |log|];
    forall f | f in s'.links
      ensures at'[f] < |log'| && log'[at'[f]].0 == f && Accepts(checks, f, log'[at'[f]].1)
      ensures s'.links[f].0 == log'[at'[f]].1.filepath
    {
      if f != file {
        assert log'[at[f]] == log[at[f]];
      }
    }
    assert file !in s.linkOrder;
  }

  lemma AcceptTargets(file: string, cand: Candidate, checks: Checks, s: Search, log: seq<(string, Candidate)>)
    requires Accepts(checks, file, cand)
    requires TargetsOk(checks, s, log)
    ensures TargetsOk(checks, Confirmed(s, file, cand), log + [(file, cand)])
  {
    FirstFoundStep(log, (file, cand), checks);
  }

  /** A verification that succeeds confirms the file with a link into the download location. */
  lemma AcceptKeeps(file: string, cand: Candidate, cands: map<string, seq<Candidate>>, checks: Checks,
                    s: Search, log: seq<(string, Candidate)>, at: map<string, nat>)
    requires file in cands && cand in cands[file] && file !in s.links
    requires Accepts(checks, file, cand)
    requires Consistent(cands, checks, s, log, at)
    ensures Consistent(cands, checks, Confirmed(s, file, cand), log + [(file, cand)], at[file := |log|])
  {
    AcceptLog(file, cand, cands, checks, s, log, at);
    AcceptLinks(file, cand, checks, s, log, at);
    AcceptTargets(file, cand, checks, s, log);
  }

  /** The search only adds to what it had. */
  ghost predicate Extends(s: Search, s': Search, log: seq<(string, Candidate)>, log': seq<(string, Candidate)>)
  {
    && |log| <= |log'| && (forall i :: 0 <= i < |log| ==> log'[i] == log[i])
    && (forall f :: f in s.links ==> f in s'.links && s'.links[f] == s.links[f])
    && (s.location.Some? ==> s'.location == s.location)
  }

  lemma StartConsistent(cands: map<string, seq<Candidate>>, checks: Checks)
    ensures Consistent(cands, checks, Search(map[], [], None), [], map[])
  {
  }

  /** The candidate lists in key order, as the `Combinator` receives them. */
  function Lists(cands: map<string, seq<Candidate>>, order: seq<string>): (r: seq<seq<Candidate>>)
    requires forall k :: k in order ==> k in cands
    ensures |r| == |order|
    ensures forall i :: 0 <= i < |r| ==> r[i] == cands[order[i]]
  {
    seq(|order|, i requires 0 <= i < |order| => cands[order[i]])
  }

  /** The paths of the torrent's files. */
  function Paths(files: seq<TorrentFile>): (r: seq<string>)
    ensures |r| == |files|
    ensures forall i :: 0 <= i < |r| ==> r[i] == files[i].path
  {
    seq(|files|, i requires 0 <= i < |files| => files[i].path)
  }

  /** The hard links to create, one per confirmed file, in the order the files were confirmed. */
  function Hardlinks(s: Search): (r: seq<(string, string)>)
    requires forall f :: f in s.linkOrder ==> f in s.links
    ensures |r| == |s.linkOrder|
    ensures forall i :: 0 <= i < |r| ==> r[i] == s.links[s.linkOrder[i]]
  {
    seq(|s.linkOrder|, i requires 0 <= i < |s.linkOrder| => s.links[s.linkOrder[i]])
  }

  /** Some verification in `log` confirmed `file`. */
  ghost predicate ConfirmedIn(log: seq<(string, Candidate)>, file: string, checks: Checks)
  {
    exists i :: 0 <= i < |log| && log[i].0 == file && Accepts(checks, file, log[i].1)
  }

  /** Every torrent file is confirmed by some verification in `log`. */
  ghost predicate AllFound(files: seq<TorrentFile>, log: seq<(string, Candidate)>, checks: Checks)
  {
    forall i :: 0 <= i < |files| ==> ConfirmedIn(log, files[i].path, checks)
  }

  /**
   * The verifications one assignment makes after the verifications `prior`:
   * its pairs in order, leaving out each file confirmed by then.
   */
  ghost function Verifications(prior: seq<(string, Candidate)>, pairs: seq<(string, Candidate)>, checks: Checks)
    : seq<(string, Candidate)>
  {
    if pairs == [] then []
    else
      var prev := Verifications(prior, pairs[..|pairs| - 1], checks);
      var x := pairs[|pairs| - 1];
      if ConfirmedIn(prior + prev, x.0, checks) then prev else prev + [x]
  }

  /** The verifications a search makes over the assignments it was handed, in order. */
  ghost function SearchLog(assignments: seq<seq<(string, Candidate)>>, checks: Checks): seq<(string, Candidate)>
  {
    if assignments == [] then []
    else
      var prev := SearchLog(assignments[..|assignments| - 1], checks);
      prev + Verifications(prev, assignments[|assignments| - 1], checks)
  }

  /** The verifications made over the first `n` assignments. */
  ghost function LogAfter(assignments: seq<seq<(string, Candidate)>>, n: nat, checks: Checks): seq<(string, Candidate)>
    requires n <= |assignments|
  {
    SearchLog(assignments[..n], checks)
  }

  /** The search went on past an assignment only while some torrent file was unconfirmed. */
  ghost predicate StoppedInTime(files: seq<TorrentFile>, assignments: seq<seq<(string, Candidate)>>, checks: Checks)
  {
    forall n :: 0 < n < |assignments| ==> !AllFound(files, LogAfter(assignments, n, checks), checks)
  }

  /** Pulling one more assignment keeps the stop rule when the last one left a file unconfirmed. */
  lemma KeptGoing(files: seq<TorrentFile>, assignments: seq<seq<(string, Candidate)>>,
                  pairs: seq<(string, Candidate)>, checks: Checks)
    requires StoppedInTime(files, assignments, checks)
    requires assignments != [] ==> !AllFound(files, SearchLog(assignments, checks), checks)
    ensures StoppedInTime(files, assignments + [pairs], checks)
  {
    var a' := assignments + [pairs];
    forall n | 0 < n < |a'| ensures !AllFound(files, LogAfter(a', n, checks), checks) {
      assert a'[..n] == assignments[..n];
      if n == |assignments| {
        assert assignments[..n] == assignments;
      } else {
        assert LogAfter(assignments, n, checks) == LogAfter(a', n, checks);
      }
    }
  }

  /**
   * `assignments` are the assignments at the cursor positions `positions`:
   * the first has every cursor at zero, and the positions only move forward.
   */
  ghost predicate Handed(order: seq<string>, lists: seq<seq<Candidate>>,
                         assignments: seq<seq<(string, Candidate)>>, positions: seq<seq<nat>>)
  {
    && |positions| == |assignments| && |order| == |lists|
    && (assignments != [] ==> positions[0] == O.Zeros(|order|))
    && (forall i :: 0 <= i < |positions| ==>
          O.InBounds(positions[i], O.Sizes(lists)) && assignments[i] == C.Pairs(order, lists, positions[i]))
    && (forall i, j :: 0 <= i < j < |positions| && |positions[i]| == |positions[j]| == |lists| ==>
          O.Index(positions[i], O.Sizes(lists)) < O.Index(positions[j], O.Sizes(lists)))
  }

  lemma HandedStep(order: seq<string>, lists: seq<seq<Candidate>>, assignments: seq<seq<(string, Candidate)>>,
                   positions: seq<seq<nat>>, pairs: seq<(string, Candidate)>, cur: seq<nat>)
    requires Handed(order, lists, assignments, positions)
    requires O.InBounds(cur, O.Sizes(lists)) && pairs == C.Pairs(order, lists, cur)
    requires assignments == [] ==> cur == O.Zeros(|order|)
    requires assignments != [] ==>
      O.InBounds(positions[|positions| - 1], O.Sizes(lists)) &&
      O.Index(positions[|positions| - 1], O.Sizes(lists)) < O.Index(cur, O.Sizes(lists))
    ensures Handed(order, lists, assignments + [pairs], positions + [cur])
  {
    var assignments', positions' := assignments + [pairs], positions + [cur];
    var sizes := O.Sizes(lists);
    forall i | 0 <= i < |positions'|
      ensures O.InBounds(positions'[i], sizes) && assignments'[i] == C.Pairs(order, lists, positions'[i])
    {
      if i < |positions| {
        assert positions'[i] == positions[i] && assignments'[i] == assignments[i];
      }
    }
    forall i, j | 0 <= i < j < |positions'| && |positions'[i]| == |positions'[j]| == |lists|
      ensures O.Index(positions'[i], sizes) < O.Index(positions'[j], sizes)
    {
      if j == |positions| {
        var last := |positions| - 1;
        if i < last {
          assert O.Index(positions[i], sizes) < O.Index(positions[last], sizes);
        }
      }
    }
  }

  /**
   * The search so far: its verifications are those of the assignments
   * handed out, in order, and it went on past an assignment only while a
   * torrent file was unconfirmed.
   */
  ghost predicate Trail(files: seq<TorrentFile>, order: seq<string>, lists: seq<seq<Candidate>>, checks: Checks,
                        log: seq<(string, Candidate)>, assignments: seq<seq<(string, Candidate)>>, positions: seq<seq<nat>>)
  {
    log == SearchLog(assignments, checks) && StoppedInTime(files, assignments, checks) &&
    Handed(order, lists, assignments, positions)
  }

  /**
   * One pass verified the assignment at the cursors `cur`: the first
   * assignment when the combinator had not started, and otherwise the
   * odometer's next position after the cursors `prev` under the locks
   * `locks` in force.
   */
  ghost predicate Pass(order: seq<string>, lists: seq<seq<Candidate>>, checks: Checks,
                       log: seq<(string, Candidate)>, log': seq<(string, Candidate)>,
                       pairs: seq<(string, Candidate)>, cur: seq<nat>, prev: seq<nat>, locks: seq<bool>,
                       wasStarted: bool)
  {
    && |order| == |lists| && O.InBounds(cur, O.Sizes(lists))
    && pairs == C.Pairs(order, lists, cur) && log' == log + Verifications(log, pairs, checks)
    && (!wasStarted ==> cur == O.Zeros(|order|))
    && (wasStarted ==> |prev| == |lists| == |locks| && O.Step(prev, O.Sizes(lists), locks) == Some(cur))
  }

  /**
   * The locks in force after the first `n` assignments: a key is locked
   * when it was found before the search or confirmed since.
   */
  ghost function LocksAfter(order: seq<string>, base: set<string>, assignments: seq<seq<(string, Candidate)>>,
                            n: nat, checks: Checks): (r: seq<bool>)
    requires n <= |assignments|
    ensures |r| == |order|
  {
    seq(|order|, k requires 0 <= k < |order| =>
      order[k] in base || ConfirmedIn(LogAfter(assignments, n, checks), order[k], checks))
  }

  /**
   * Each assignment after the first is at the odometer's next position
   * from the one before, under the locks in force after the ones before.
   */
  ghost predicate Stepped(order: seq<string>, lists: seq<seq<Candidate>>, base: set<string>, checks: Checks,
                          assignments: seq<seq<(string, Candidate)>>, positions: seq<seq<nat>>)
  {
    forall n :: 0 < n < |positions| && n <= |assignments| && |positions[n - 1]| == |lists| == |order| ==>
      O.Step(positions[n - 1], O.Sizes(lists), LocksAfter(order, base, assignments, n, checks)) == Some(positions[n])
  }

  /**
   * A whole search that started with the found files `base`: the trail of
   * assignments, each one the next under the locks, and the reason it
   * ended. It ends when every torrent file is confirmed; otherwise it
   * fails (`failed`) when a found file is not a key, and otherwise the
   * odometer has no position left under the locks.
   */
  ghost predicate Run(files: seq<TorrentFile>, order: seq<string>, lists: seq<seq<Candidate>>, checks: Checks,
                      base: set<string>, log: seq<(string, Candidate)>,
                      assignments: seq<seq<(string, Candidate)>>, positions: seq<seq<nat>>, failed: bool)
  {
    && Trail(files, order, lists, checks, log, assignments, positions)
    && Stepped(order, lists, base, checks, assignments, positions)
    && assignments != []
    && (|assignments| > 1 ==> forall f :: f in base ==> f in order)
    && (failed <==> !AllFound(files, log, checks) && exists f :: f in base && f !in order)
    && (!failed && !AllFound(files, log, checks) ==>
          O.Step(positions[|positions| - 1], O.Sizes(lists), LocksAfter(order, base, assignments, |assignments|, checks))
            == None)
  }

  /**
   * The combinator's pull, over values: `prev`, `locks`, `wasStarted`
   * and `wasExhausted` are its state before; `cursor`, `started` and
   * `exhausted` after. There is a next assignment (`more`) at the first
   * position, or at the odometer's next position under the locks, and
   * none when the odometer has no position left.
   */
  ghost predicate Drawn(lists: seq<seq<Candidate>>, more: bool,
                        prev: seq<nat>, locks: seq<bool>, wasStarted: bool, wasExhausted: bool,
                        cursor: seq<nat>, started: bool, exhausted: bool)
  {
    && (more ==> started && !exhausted && O.InBounds(cursor, O.Sizes(lists)))
    && (more && !wasStarted ==> cursor == O.Zeros(|lists|))
    && (more && wasStarted ==> |prev| == |lists| == |locks| && O.Step(prev, O.Sizes(lists), locks) == Some(cursor))
    && (!more && !wasExhausted ==>
          wasStarted && |prev| == |lists| == |locks| && O.Step(prev, O.Sizes(lists), locks) == None)
    && (!wasStarted ==> more)
  }

  /**
   * Pulling the next assignment, over values: `prev`, `locks`,
   * `wasStarted` and `wasExhausted` are the combinator's state before;
   * `cursor`, `started` and `exhausted` after. When there is a next
   * assignment (`more`) it is the first one or the odometer's next position
   * under the locks, and it is verified; otherwise the odometer has no
   * position left under the locks.
   */
  ghost predicate Pulled(order: seq<string>, lists: seq<seq<Candidate>>, checks: Checks,
                         log: seq<(string, Candidate)>, log': seq<(string, Candidate)>, more: bool,
                         pairs: seq<(string, Candidate)>, cur: seq<nat>,
                         prev: seq<nat>, locks: seq<bool>, wasStarted: bool, wasExhausted: bool,
                         cursor: seq<nat>, started: bool, exhausted: bool)
  {
    && (more ==> started && !exhausted && cur == cursor && Pass(order, lists, checks, log, log', pairs, cur, prev, locks, wasStarted))
    && (!more && !wasExhausted ==>
          wasStarted && |prev| == |lists| == |locks| && O.Step(prev, O.Sizes(lists), locks) == None)
    && (!more ==> log' == log)
    && (!wasStarted ==> more)
  }

  /**
   * The end of a pass, over values: done exactly when every torrent file
   * is confirmed; failed exactly when, besides, a file found before the
   * search is not a key; and when it goes on, the locks `locked` are
   * exactly the found files `found`.
   */
  ghost predicate Settled(files: seq<TorrentFile>, order: seq<string>, cands: map<string, seq<Candidate>>,
                          checks: Checks, base: set<string>, log: seq<(string, Candidate)>, outcome: Outcome,
                          locked: seq<bool>, found: set<string>)
  {
    && (outcome == Done <==> AllFound(files, log, checks))
    && (outcome.Failed? <==> !AllFound(files, log, checks) && exists f :: f in base && f !in cands)
    && (outcome == Continue ==>
          && (forall f :: f in base ==> f in cands)
          && |locked| == |order| && forall k :: 0 <= k < |order| ==> locked[k] == (order[k] in found))
  }

  /** One pass of the loop: a pull, then, if there was an assignment, the end of the pass. */
  ghost predicate Turned(files: seq<TorrentFile>, order: seq<string>, lists: seq<seq<Candidate>>,
                         cands: map<string, seq<Candidate>>, checks: Checks, base: set<string>,
                         log: seq<(string, Candidate)>, log': seq<(string, Candidate)>, outcome: Outcome, pulled: bool,
                         pairs: seq<(string, Candidate)>, cur: seq<nat>,
                         prev: seq<nat>, locks: seq<bool>, wasStarted: bool, wasExhausted: bool,
                         cursor: seq<nat>, locked: seq<bool>, started: bool, exhausted: bool, found: set<string>)
  {
    && Pulled(order, lists, checks, log, log', pulled, pairs, cur, prev, locks, wasStarted, wasExhausted,
              cursor, started, exhausted)
    && (pulled ==> Settled(files, order, cands, checks, base, log', outcome, locked, found))
    && (!pulled ==> outcome == Done)
  }

  /**
   * The loop's state over values: the search so far, stepped under the
   * locks; while it goes on, the combinator's cursors are at the last
   * assignment and its locks are those after the assignments so far; once
   * it has ended, the reason it ended.
   */
  ghost predicate Walked(files: seq<TorrentFile>, order: seq<string>, lists: seq<seq<Candidate>>, checks: Checks,
                         base: set<string>, log: seq<(string, Candidate)>,
                         assignments: seq<seq<(string, Candidate)>>, positions: seq<seq<nat>>, outcome: Outcome,
                         cursor: seq<nat>, locked: seq<bool>, started: bool, exhausted: bool)
  {
    && |positions| == |assignments|
    && Trail(files, order, lists, checks, log, assignments, positions)
    && Stepped(order, lists, base, checks, assignments, positions)
    && (outcome != Continue ==> assignments != [])
    && (|assignments| > 1 ==> forall f :: f in base ==> f in order)
    && (outcome != Done && assignments != [] ==> !AllFound(files, log, checks))
    && (outcome == Continue ==> !exhausted && (assignments == [] <==> !started))
    && (outcome == Continue && assignments != [] ==>
          && positions[|positions| - 1] == cursor
          && locked == LocksAfter(order, base, assignments, |assignments|, checks)
          && forall f :: f in base ==> f in order)
    && (outcome != Continue ==>
          (outcome.Failed? <==> !AllFound(files, log, checks) && exists f :: f in base && f !in order))
    && (outcome == Done && !AllFound(files, log, checks) && |positions[|positions| - 1]| == |lists| == |order| ==>
          O.Step(positions[|positions| - 1], O.Sizes(lists), LocksAfter(order, base, assignments, |assignments|, checks))
            == None)
  }

  /** One pass keeps the loop's state, with the assignment it pulled appended. */
  lemma WalkStep(files: seq<TorrentFile>, order: seq<string>, lists: seq<seq<Candidate>>,
                 cands: map<string, seq<Candidate>>, checks: Checks, base: set<string>,
                 s: Search, log: seq<(string, Candidate)>, log': seq<(string, Candidate)>, at: map<string, nat>,
                 assignments: seq<seq<(string, Candidate)>>, positions: seq<seq<nat>>,
                 outcome: Outcome, pulled: bool, pairs: seq<(string, Candidate)>, cur: seq<nat>,
                 prev: seq<nat>, locks: seq<bool>, wasStarted: bool, wasExhausted: bool,
                 cursor: seq<nat>, locked: seq<bool>, started: bool, exhausted: bool, found: set<string>)
    requires forall p :: p in order <==> p in cands
    requires Walked(files, order, lists, checks, base, log, assignments, positions, Continue,
                    prev, locks, wasStarted, wasExhausted)
    requires Turned(files, order, lists, cands, checks, base, log, log', outcome, pulled, pairs, cur,
                    prev, locks, wasStarted, wasExhausted, cursor, locked, started, exhausted, found)
    requires Consistent(cands, checks, s, log', at) && found == base + s.links.Keys
    ensures pulled ==> Walked(files, order, lists, checks, base, log', assignments + [pairs], positions + [cur],
                              outcome, cursor, locked, started, exhausted)
    ensures !pulled ==> Walked(files, order, lists, checks, base, log', assignments, positions,
                               outcome, cursor, locked, started, exhausted)
  {
    if pulled {
      TrailStep(files, order, lists, checks, log, log', assignments, positions, pairs, cur, prev, locks, wasStarted);
      SteppedStep(order, lists, base, checks, assignments, positions, pairs, cur, prev, locks, wasStarted);
      if outcome == Continue {
        LocksAreFound(order, base, assignments + [pairs], checks, cands, s, log', at, locked, found);
      }
    }
  }

  /** Two stepped records from the same inputs hand out the same first `n` assignments at the same positions. */
  lemma {:induction false} StepsAgree(order: seq<string>, lists: seq<seq<Candidate>>, base: set<string>, checks: Checks,
                                      a1: seq<seq<(string, Candidate)>>, p1: seq<seq<nat>>,
                                      a2: seq<seq<(string, Candidate)>>, p2: seq<seq<nat>>, n: nat)
    requires Handed(order, lists, a1, p1) && Stepped(order, lists, base, checks, a1, p1)
    requires Handed(order, lists, a2, p2) && Stepped(order, lists, base, checks, a2, p2)
    requires n <= |a1| && n <= |a2|
    ensures p1[..n] == p2[..n] && a1[..n] == a2[..n]
  {
    if n == 1 {
      assert p1[0] == p2[0];
    } else if n > 1 {
      var m := n - 1;
      StepsAgree(order, lists, base, checks, a1, p1, a2, p2, m);
      assert LocksAfter(order, base, a1, m, checks) == LocksAfter(order, base, a2, m, checks) by {
        assert a1[..m][..m] == a2[..m][..m];
      }
      assert p1[m - 1] == p2[m - 1] by {
        assert p1[..m][m - 1] == p2[..m][m - 1];
      }
      assert p1[m] == p2[m];
      assert p1[..n] == p1[..m] + [p1[m]] && p2[..n] == p2[..m] + [p2[m]];
      assert a1[..n] == a1[..m] + [a1[m]] && a2[..n] == a2[..m] + [a2[m]];
    }
  }

  /** A run is no shorter than any other from the same inputs. */
  lemma RunNoLonger(files: seq<TorrentFile>, order: seq<string>, lists: seq<seq<Candidate>>,
                    checks: Checks, base: set<string>,
                    log1: seq<(string, Candidate)>, a1: seq<seq<(string, Candidate)>>, p1: seq<seq<nat>>, failed1: bool,
                    log2: seq<(string, Candidate)>, a2: seq<seq<(string, Candidate)>>, p2: seq<seq<nat>>, failed2: bool)
    requires Run(files, order, lists, checks, base, log1, a1, p1, failed1)
    requires Run(files, order, lists, checks, base, log2, a2, p2, failed2)
    requires |a1| <= |a2|
    ensures |a2| <= |a1|
  {
    var m := |a1|;
    StepsAgree(order, lists, base, checks, a1, p1, a2, p2, m);
    // where this run ended, the other one had the same log, locks and cursors
    var mid, locks, at := LogAfter(a2, m, checks), LocksAfter(order, base, a2, m, checks), p2[m - 1];
    assert a1[..m] == a1;
    assert log1 == mid;
    assert LocksAfter(order, base, a1, m, checks) == locks;
    assert p1[m - 1] == at by {
      assert p1[..m][m - 1] == p2[..m][m - 1];
    }
  }

  /** The record of a run determines it: the search's outcome is a function of its inputs. */
  lemma RunDeterministic(files: seq<TorrentFile>, order: seq<string>, lists: seq<seq<Candidate>>,
                         checks: Checks, base: set<string>,
                         log1: seq<(string, Candidate)>, a1: seq<seq<(string, Candidate)>>, p1: seq<seq<nat>>,
                         failed1: bool,
                         log2: seq<(string, Candidate)>, a2: seq<seq<(string, Candidate)>>, p2: seq<seq<nat>>,
                         failed2: bool)
    requires Run(files, order, lists, checks, base, log1, a1, p1, failed1)
    requires Run(files, order, lists, checks, base, log2, a2, p2, failed2)
    ensures a1 == a2 && p1 == p2 && log1 == log2 && failed1 == failed2
  {
    if |a1| <= |a2| {
      RunNoLonger(files, order, lists, checks, base, log1, a1, p1, failed1, log2, a2, p2, failed2);
    } else {
      RunNoLonger(files, order, lists, checks, base, log2, a2, p2, failed2, log1, a1, p1, failed1);
    }
    StepsAgree(order, lists, base, checks, a1, p1, a2, p2, |a1|);
    assert a1 == a1[..|a1|] && a2 == a2[..|a2|] && p1 == p1[..|p1|] && p2 == p2[..|p2|];
  }

  /** Appending an assignment leaves the locks after the earlier ones as they were. */
  lemma LocksAfterPrefix(order: seq<string>, base: set<string>, assignments: seq<seq<(string, Candidate)>>,
                         pairs: seq<(string, Candidate)>, n: nat, checks: Checks)
    requires n <= |assignments|
    ensures LocksAfter(order, base, assignments + [pairs], n, checks) == LocksAfter(order, base, assignments, n, checks)
  {
    assert (assignments + [pairs])[..n] == assignments[..n];
  }

  /** A pass that stepped under the locks after the assignments so far extends the stepped record. */
  lemma SteppedStep(order: seq<string>, lists: seq<seq<Candidate>>, base: set<string>, checks: Checks,
                    assignments: seq<seq<(string, Candidate)>>, positions: seq<seq<nat>>,
                    pairs: seq<(string, Candidate)>, cur: seq<nat>, prev: seq<nat>, locks: seq<bool>, wasStarted: bool)
    requires Stepped(order, lists, base, checks, assignments, positions) && |positions| == |assignments|
    requires wasStarted ==> |prev| == |lists| == |locks| && O.Step(prev, O.Sizes(lists), locks) == Some(cur)
    requires assignments == [] <==> !wasStarted
    requires assignments != [] ==>
      positions[|positions| - 1] == prev && locks == LocksAfter(order, base, assignments, |assignments|, checks)
    ensures Stepped(order, lists, base, checks, assignments + [pairs], positions + [cur])
  {
    var a', p' := assignments + [pairs], positions + [cur];
    forall n | 0 < n < |p'| && n <= |a'| && |p'[n - 1]| == |lists| == |order|
      ensures O.Step(p'[n - 1], O.Sizes(lists), LocksAfter(order, base, a', n, checks)) == Some(p'[n])
    {
      LocksAfterPrefix(order, base, assignments, pairs, n, checks);
      if n < |positions| {
        assert p'[n - 1] == positions[n - 1] && p'[n] == positions[n];
      }
    }
  }

  /** After a successful lock the combinator's locks are those after the assignments so far. */
  lemma LocksAreFound(order: seq<string>, base: set<string>, assignments: seq<seq<(string, Candidate)>>, checks: Checks,
                      cands: map<string, seq<Candidate>>, s: Search, log: seq<(string, Candidate)>,
                      at: map<string, nat>, locked: seq<bool>, found: set<string>)
    requires Consistent(cands, checks, s, log, at) && log == SearchLog(assignments, checks)
    requires found == base + s.links.Keys
    requires |locked| == |order| && forall k :: 0 <= k < |order| ==> locked[k] == (order[k] in found)
    ensures locked == LocksAfter(order, base, assignments, |assignments|, checks)
  {
    assert assignments[..|assignments|] == assignments;
    forall k | 0 <= k < |order|
      ensures locked[k] == LocksAfter(order, base, assignments, |assignments|, checks)[k]
    {
      LinkedIffConfirmed(cands, checks, s, log, at, order[k]);
    }
  }

  lemma TrailStep(files: seq<TorrentFile>, order: seq<string>, lists: seq<seq<Candidate>>, checks: Checks,
                  log: seq<(string, Candidate)>, log': seq<(string, Candidate)>,
                  assignments: seq<seq<(string, Candidate)>>, positions: seq<seq<nat>>,
                  pairs: seq<(string, Candidate)>, cur: seq<nat>, prev: seq<nat>, locks: seq<bool>, wasStarted: bool)
    requires Trail(files, order, lists, checks, log, assignments, positions)
    requires assignments != [] ==> !AllFound(files, log, checks)
    requires Pass(order, lists, checks, log, log', pairs, cur, prev, locks, wasStarted)
    requires assignments == [] <==> !wasStarted
    requires assignments != [] ==> positions[|positions| - 1] == prev
    ensures Trail(files, order, lists, checks, log', assignments + [pairs], positions + [cur])
  {
    SearchLogStep(assignments, pairs, checks);
    KeptGoing(files, assignments, pairs, checks);
    if wasStarted {
      O.StepIncreases(prev, O.Sizes(lists), locks);
    }
    HandedStep(order, lists, assignments, positions, pairs, cur);
  }

  /** A file is linked exactly when some verification confirmed it. */
  lemma LinkedIffConfirmed(cands: map<string, seq<Candidate>>, checks: Checks, s: Search,
                           log: seq<(string, Candidate)>, at: map<string, nat>, file: string)
    requires Consistent(cands, checks, s, log, at)
    ensures file in s.links <==> ConfirmedIn(log, file, checks)
  {
    if file in s.links {
      assert log[at[file]].0 == file && Accepts(checks, file, log[at[file]].1);
    }
  }

  /** Every torrent file is linked exactly when every one is confirmed. */
  lemma AllLinkedIffFound(files: seq<TorrentFile>, cands: map<string, seq<Candidate>>, checks: Checks, s: Search,
                          log: seq<(string, Candidate)>, at: map<string, nat>)
    requires Consistent(cands, checks, s, log, at)
    ensures (forall i :: 0 <= i < |files| ==> files[i].path in s.links) <==> AllFound(files, log, checks)
  {
    forall i | 0 <= i < |files| ensures files[i].path in s.links <==> ConfirmedIn(log, files[i].path, checks) {
      LinkedIffConfirmed(cands, checks, s, log, at, files[i].path);
    }
  }

  lemma VerificationsStep(prior: seq<(string, Candidate)>, pairs: seq<(string, Candidate)>, j: nat, checks: Checks)
    requires j < |pairs|
    ensures Verifications(prior, pairs[..j + 1], checks) ==
      var prev := Verifications(prior, pairs[..j], checks);
      if ConfirmedIn(prior + prev, pairs[j].0, checks) then prev else prev + [pairs[j]]
  {
    assert pairs[..j + 1][..j] == pairs[..j];
  }

  /** Verifying pair `j` of an assignment, unless its file is confirmed, extends the assignment's verifications by one pair. */
  lemma LogStep(prior: seq<(string, Candidate)>, log0: seq<(string, Candidate)>, log1: seq<(string, Candidate)>,
                pairs: seq<(string, Candidate)>, j: nat, checks: Checks, linked: bool)
    requires j < |pairs|
    requires log0 == prior + Verifications(prior, pairs[..j], checks)
    requires linked <==> ConfirmedIn(log0, pairs[j].0, checks)
    requires log1 == if linked then log0 else log0 + [pairs[j]]
    ensures log1 == prior + Verifications(prior, pairs[..j + 1], checks)
  {
    VerificationsStep(prior, pairs, j, checks);
  }

  lemma SearchLogStep(assignments: seq<seq<(string, Candidate)>>, pairs: seq<(string, Candidate)>, checks: Checks)
    ensures SearchLog(assignments + [pairs], checks) ==
      SearchLog(assignments, checks) + Verifications(SearchLog(assignments, checks), pairs, checks)
  {
    assert (assignments + [pairs])[..|assignments|] == assignments;
  }

  /** With its files distinct and nothing verified before, every pair of an assignment is verified. */
  lemma {:induction false} FirstVerifications(pairs: seq<(string, Candidate)>, checks: Checks)
    requires forall i, j :: 0 <= i < j < |pairs| ==> pairs[i].0 != pairs[j].0
    ensures Verifications([], pairs, checks) == pairs
  {
    if pairs != [] {
      var init := pairs[..|pairs| - 1];
      var x := pairs[|pairs| - 1];
      FirstVerifications(init, checks);
      assert [] + init == init;
      assert !ConfirmedIn(init, x.0, checks);
      assert init + [x] == pairs;
    }
  }

  /** A first verification that succeeds fixes the download location. */
  lemma {:induction false} FirstFoundHead(log: seq<(string, Candidate)>, checks: Checks)
    requires log != [] && Accepts(checks, log[0].0, log[0].1)
    ensures FirstFound(log, checks) == Some(log[0].1.location)
  {
    if |log| > 1 {
      FirstFoundHead(log[..|log| - 1], checks);
    }
  }

  /** The first candidate of every file is the file, and every torrent file has candidates. */
  ghost predicate FirstAllValid(files: seq<TorrentFile>, cands: map<string, seq<Candidate>>, order: seq<string>,
                                checks: Checks)
  {
    && order != []
    && (forall i :: 0 <= i < |files| ==> files[i].path in cands)
    && (forall k :: 0 <= k < |order| ==>
          order[k] in cands && cands[order[k]] != [] && Accepts(checks, order[k], cands[order[k]][0]))
  }

  /** The first assignment pairs every key with its first candidate. */
  lemma FirstPairs(cands: map<string, seq<Candidate>>, order: seq<string>, first: seq<nat>)
    requires (forall p :: p in order ==> p in cands) && first == O.Zeros(|order|)
    requires O.InBounds(first, O.Sizes(Lists(cands, order)))
    ensures forall k :: 0 <= k < |order| ==> C.Pairs(order, Lists(cands, order), first)[k] == (order[k], cands[order[k]][0])
  {
    var pairs := C.Pairs(order, Lists(cands, order), first);
    forall k | 0 <= k < |order| ensures pairs[k] == (order[k], cands[order[k]][0]) {
      assert pairs[k].1 == O.Pick(Lists(cands, order), first)[k];
    }
  }

  /** The search stops after a first assignment that confirms every torrent file. */
  lemma StopsAtFirst(files: seq<TorrentFile>, assignments: seq<seq<(string, Candidate)>>, checks: Checks)
    requires assignments != [] && StoppedInTime(files, assignments, checks)
    requires forall i, j :: 0 <= i < j < |assignments[0]| ==> assignments[0][i].0 != assignments[0][j].0
    requires AllFound(files, assignments[0], checks)
    ensures assignments == [assignments[0]] && SearchLog(assignments, checks) == assignments[0]
  {
    var a0 := assignments[0];
    FirstVerifications(a0, checks);
    assert assignments[..1] == [a0];
    assert SearchLog([a0], checks) == a0 by {
      assert [a0][..0] == [];
    }
    assert AllFound(files, LogAfter(assignments, 1, checks), checks);
  }

  /** After verifying only the first assignment, each key is linked to its first candidate. */
  lemma FirstLinks(cands: map<string, seq<Candidate>>, order: seq<string>, checks: Checks,
                   s: Search, log: seq<(string, Candidate)>, at: map<string, nat>)
    requires Distinct(order) && |log| == |order|
    requires forall k :: 0 <= k < |order| ==> log[k].0 == order[k] && Accepts(checks, log[k].0, log[k].1)
    requires Consistent(cands, checks, s, log, at)
    ensures forall k :: 0 <= k < |order| ==> order[k] in s.links && s.links[order[k]].0 == log[k].1.filepath
  {
    forall k | 0 <= k < |order|
      ensures order[k] in s.links && s.links[order[k]].0 == log[k].1.filepath
    {
      LinkedIffConfirmed(cands, checks, s, log, at, order[k]);
      assert log[at[order[k]]].0 == order[k];
    }
  }

  /**
   * When the first assignment is all valid, the search stops after it: the
   * download location is the location of the first key's first candidate,
   * and every key is linked to its first candidate.
   */
  lemma FirstAssignmentSettles(files: seq<TorrentFile>, cands: map<string, seq<Candidate>>, order: seq<string>,
                               checks: Checks, assignments: seq<seq<(string, Candidate)>>, first: seq<nat>,
                               s: Search, log: seq<(string, Candidate)>, at: map<string, nat>)
    requires Distinct(order) && (forall p :: p in order <==> p in cands)
    requires FirstAllValid(files, cands, order, checks)
    requires Consistent(cands, checks, s, log, at) && log == SearchLog(assignments, checks)
    requires assignments != [] && first == O.Zeros(|order|)
    requires O.InBounds(first, O.Sizes(Lists(cands, order)))
    requires assignments[0] == C.Pairs(order, Lists(cands, order), first)
    requires StoppedInTime(files, assignments, checks)
    ensures |assignments| == 1 && AllFound(files, log, checks)
    ensures s.location == Some(cands[order[0]][0].location)
    ensures forall k :: 0 <= k < |order| ==> order[k] in s.links && s.links[order[k]].0 == cands[order[k]][0].filepath
  {
    var a0 := assignments[0];
    FirstPairs(cands, order, first);
    forall i | 0 <= i < |files| ensures ConfirmedIn(a0, files[i].path, checks) {
      var k :| 0 <= k < |order| && order[k] == files[i].path;
      assert a0[k].0 == files[i].path;
    }
    StopsAtFirst(files, assignments, checks);
    FirstFoundHead(log, checks);
    FirstLinks(cands, order, checks, s, log, at);
  }

  class FindDownloadLocation {
    const settings: Settings
    /** The torrent, once `find` has read it. */
    var torrent: Option<Torrent>
    /** `_found_files`: every file confirmed by any search of this object. */
    var foundFiles: set<string>

    constructor (settings: Settings)
      requires settings.locations != []
      ensures this.settings == settings && torrent.None? && foundFiles == {}
    {
      this.settings := settings;
      torrent := None;
      foundFiles := {};
    }

    /** `FindDownloadLocation(locations=..., default=...)`, which raises when no location is given. */
    static method Create(locations: seq<string>, default: Option<string>) returns (r: Result<FindDownloadLocation, FindError>)
      ensures r.Err? <==> locations == []
      ensures r.Err? ==> r.error == NoLocations
      ensures r.Ok? ==> fresh(r.value) && Configure(locations, default) == Ok(r.value.settings)
      ensures r.Ok? ==> r.value.torrent.None? && r.value.foundFiles == {}
    {
      var settings := Configure(locations, default);
      if settings.Err? {
        return Err(settings.error);
      }
      var finder := new FindDownloadLocation(settings.value);
      return Ok(finder);
    }

    /**
     * `find`: reads the torrent, searches, and reports the location found,
     * else the default, else the first location. The search plans the hard
     * links in `hardlinks`. The ghost results expose the candidates
     * (`candidates`, keyed in `keys` order) and the state the search ended in.
     */
    method Find(read: Result<Torrent, string>, isDir: string -> bool, walk: string -> seq<string>,
                stat: string -> Stat, sim: (string, string) -> real, checks: Checks)
      returns (r: Result<string, FindError>, hardlinks: seq<(string, string)>, ghost found: Option<string>,
               ghost candidates: map<string, seq<Candidate>>, ghost keys: seq<string>, ghost idx: seq<nat>,
               ghost search: Search, ghost log: seq<(string, Candidate)>, ghost at: map<string, nat>,
               ghost assignments: seq<seq<(string, Candidate)>>, ghost positions: seq<seq<nat>>)
      requires settings.locations != []
      requires read.Ok? ==> DistinctPaths(read.value.files)
      modifies this
      ensures read.Err? ==> r == Err(TorrentUnreadable(read.error)) && hardlinks == [] && torrent == old(torrent)
      ensures read.Ok? ==> torrent == Some(read.value)
      ensures read.Ok? ==>
        var files := read.value.files;
        var entries := EachFile(settings.locations, isDir, walk);
        && (forall t :: 0 <= t < |files| ==> (files[t].path in candidates <==> FirstHit(entries, files[t], stat) < |entries|))
        && (forall t :: 0 <= t < |files| && files[t].path in candidates ==>
              candidates[files[t].path] == Best(Matches(entries, files[t], stat, sim)))
        && (forall p :: p in candidates ==> p in Paths(files))
        && Distinct(keys) && (forall p :: p in keys <==> p in candidates) && KeyOrder(entries, files, stat, keys, idx)
      ensures r.Ok? ==> r.value == Choose(found, settings)
      ensures read.Ok? ==>
        && Consistent(candidates, checks, search, log, at) && foundFiles == old(foundFiles) + search.links.Keys
        && Run(read.value.files, keys, Lists(candidates, keys), checks, old(foundFiles), log, assignments, positions, r.Err?)
      ensures r.Ok? ==> found == search.location == FirstFound(log, checks) && hardlinks == Hardlinks(search)
      ensures r.Ok? ==> forall k, c ::
        (0 <= k < |keys| && keys[k] !in search.links && keys[k] !in old(foundFiles) && c in candidates[keys[k]]) ==>
          !Accepts(checks, keys[k], c)
      ensures r.Err? ==> hardlinks == []
      ensures read.Ok? && r.Err? ==> r.error.UnknownKey? && FirstUnknown(r.error.key, old(foundFiles), candidates)
      ensures found.Some? ==> found.value in settings.locations
      ensures r.Ok? ==> r.value in settings.locations || Some(r.value) == settings.default
      ensures read.Ok? && old(foundFiles) == {} ==> r.Ok?
      ensures read.Ok? && FirstAllValid(read.value.files, candidates, keys, checks) ==>
        r == Ok(candidates[keys[0]][0].location) && |hardlinks| == |keys|
    {
      found, candidates, keys, idx, search, log, at := None, map[], [], [], Search(map[], [], None), [], map[];
      assignments, positions := [], [];
      if read.Err? {
        return Err(TorrentUnreadable(read.error)), [], found, candidates, keys, idx, search, log, at,
               assignments, positions;
      }
      torrent := Some(read.value);
      var res;
      res, hardlinks, candidates, keys, idx, search, log, at, assignments, positions :=
        Locate(read.value.files, isDir, walk, stat, sim, checks);
      if res.Err? {
        r := Err(res.error);
      } else {
        found := res.value;
        r := Ok(Choose(res.value, settings));
        ChooseIsGiven(res.value, settings);
      }
    }

    /**
     * The search part of `find`: the candidates of the torrent's files in
     * the locations, then `_get_download_location` over them.
     */
    method Locate(files: seq<TorrentFile>, isDir: string -> bool, walk: string -> seq<string>,
                  stat: string -> Stat, sim: (string, string) -> real, checks: Checks)
      returns (r: Result<Option<string>, FindError>, hardlinks: seq<(string, string)>,
               ghost candidates: map<string, seq<Candidate>>, ghost keys: seq<string>, ghost idx: seq<nat>,
               ghost search: Search, ghost log: seq<(string, Candidate)>, ghost at: map<string, nat>,
               ghost assignments: seq<seq<(string, Candidate)>>, ghost positions: seq<seq<nat>>)
      requires DistinctPaths(files)
      modifies this
      ensures torrent == old(torrent)
      ensures
        var entries := EachFile(settings.locations, isDir, walk);
        && (forall t :: 0 <= t < |files| ==> (files[t].path in candidates <==> FirstHit(entries, files[t], stat) < |entries|))
        && (forall t :: 0 <= t < |files| && files[t].path in candidates ==>
              candidates[files[t].path] == Best(Matches(entries, files[t], stat, sim)))
        && (forall p :: p in candidates ==> p in Paths(files))
        && Distinct(keys) && (forall p :: p in keys <==> p in candidates) && KeyOrder(entries, files, stat, keys, idx)
      ensures Consistent(candidates, checks, search, log, at) && foundFiles == old(foundFiles) + search.links.Keys
      ensures Run(files, keys, Lists(candidates, keys), checks, old(foundFiles), log, assignments, positions, r.Err?)
      ensures r.Ok? ==> r.value == search.location == FirstFound(log, checks) && hardlinks == Hardlinks(search)
      ensures r.Ok? && r.value.Some? ==> r.value.value in settings.locations
      ensures r.Ok? ==> forall k, c ::
        (0 <= k < |keys| && keys[k] !in search.links && keys[k] !in old(foundFiles) && c in candidates[keys[k]]) ==>
          !Accepts(checks, keys[k], c)
      ensures r.Err? ==> hardlinks == [] && r.error.UnknownKey? && FirstUnknown(r.error.key, old(foundFiles), candidates)
      ensures FirstAllValid(files, candidates, keys, checks) ==>
        r == Ok(Some(candidates[keys[0]][0].location)) && |hardlinks| == |keys|
    {
      var entries := EachFile(settings.locations, isDir, walk);
      var cands: map<string, seq<Candidate>>, order: seq<string>;
      cands, order, idx := GetSizeMatchingCandidates(files, entries, stat, sim);
      candidates, keys := cands, order;
      forall p | p in cands
        ensures cands[p] != [] && p in Paths(files)
        ensures forall c :: c in cands[p] ==> c.location in settings.locations
      {
        var t :| 0 <= t < |files| && files[t].path == p;
        RankedFromLocations(entries, files[t], stat, sim, settings.locations);
      }
      var s;
      r, hardlinks, s, log, at, assignments, positions := GetDownloadLocation(files, cands, order, checks);
      search := s;
      if r.Ok? {
        FirstFoundIn(log, checks, settings.locations);
        if FirstAllValid(files, cands, order, checks) {
          LinksAreKeys(cands, checks, s, log, at);
          AllKeysLinked(order, s);
        }
      }
    }

    /** The loop invariant of `_get_download_location`. */
    ghost predicate Searching(comb: C.Combinator<string, Candidate>, order: seq<string>, lists: seq<seq<Candidate>>,
                              cands: map<string, seq<Candidate>>, checks: Checks,
                              s: Search, log: seq<(string, Candidate)>, at: map<string, nat>, base: set<string>)
      reads this, comb, comb.cursor, comb.locked
    {
      && comb.Valid() && comb.keys == order && comb.lists == lists
      && (comb.started || !comb.exhausted)
      && Consistent(cands, checks, s, log, at) && foundFiles == base + s.links.Keys
      && Rejected(order, checks, s.links, comb.Seen)
      && (forall k :: 0 <= k < |order| && comb.locked[k] ==> order[k] in foundFiles)
    }

    /**
     * `_get_download_location`: verifies the assignments one after another
     * until every torrent file is confirmed or there is no assignment left,
     * locking the confirmed files after each assignment, then plans one hard
     * link per confirmed file. When it gives up on a file, every candidate
     * of that file has been verified and rejected.
     */
    method GetDownloadLocation(files: seq<TorrentFile>, cands: map<string, seq<Candidate>>, order: seq<string>, checks: Checks)
      returns (r: Result<Option<string>, FindError>, hardlinks: seq<(string, string)>,
               s: Search, ghost log: seq<(string, Candidate)>, ghost at: map<string, nat>,
               ghost assignments: seq<seq<(string, Candidate)>>, ghost positions: seq<seq<nat>>)
      requires Distinct(order) && (forall p :: p in order <==> p in cands)
      requires forall p :: p in cands ==> cands[p] != [] && p in Paths(files)
      modifies this
      ensures torrent == old(torrent)
      ensures Consistent(cands, checks, s, log, at) && foundFiles == old(foundFiles) + s.links.Keys
      ensures r.Ok? ==> r.value == s.location && hardlinks == Hardlinks(s)
      ensures r.Ok? ==> forall k, c ::
        (0 <= k < |order| && order[k] !in s.links && order[k] !in old(foundFiles) && c in cands[order[k]]) ==>
          !Accepts(checks, order[k], c)
      ensures r.Err? ==> r.error.UnknownKey? && FirstUnknown(r.error.key, old(foundFiles), cands) && hardlinks == []
      // the whole search: the assignments handed out, each the next under the locks, and why it ended
      ensures Run(files, order, Lists(cands, order), checks, old(foundFiles), log, assignments, positions, r.Err?)
      ensures FirstAllValid(files, cands, order, checks) ==>
        && r.Ok? && |assignments| == 1 && s.location == Some(cands[order[0]][0].location)
        && forall k :: 0 <= k < |order| ==> order[k] in s.links && s.links[order[k]].0 == cands[order[k]][0].filepath
    {
      ghost var base := foundFiles;
      var lists := Lists(cands, order);
      var comb := Begin(cands, order, lists, checks);
      var outcome;
      outcome, s, log, at, assignments, positions := Walk(comb, files, cands, order, lists, checks, base);
      if FirstAllValid(files, cands, order, checks) {
        FirstAssignmentSettles(files, cands, order, checks, assignments, positions[0], s, log, at);
      }
      if outcome.Failed? {
        return Err(UnknownKey(outcome.key)), [], s, log, at, assignments, positions;
      }
      hardlinks := PlanHardlinks(s);
      r := Ok(s.location);
    }

    /**
     * The loop of `_get_download_location`: passes over the assignments
     * until one confirms every torrent file, none is left, or locking fails.
     */
    method Walk(comb: C.Combinator<string, Candidate>, files: seq<TorrentFile>, cands: map<string, seq<Candidate>>,
                order: seq<string>, lists: seq<seq<Candidate>>, checks: Checks, ghost base: set<string>)
      returns (outcome: Outcome, s: Search, ghost log: seq<(string, Candidate)>, ghost at: map<string, nat>,
               ghost assignments: seq<seq<(string, Candidate)>>, ghost positions: seq<seq<nat>>)
      requires (forall p :: p in order <==> p in cands) && lists == Lists(cands, order)
      requires forall p :: p in order ==> p in Paths(files)
      requires Searching(comb, order, lists, cands, checks, Search(map[], [], None), [], map[], base)
      requires !comb.started
      modifies this, comb, comb.cursor, comb.locked
      ensures Consistent(cands, checks, s, log, at) && foundFiles == base + s.links.Keys
      ensures torrent == old(torrent)
      ensures outcome != Continue
      ensures outcome == Done ==> forall k, c ::
        (0 <= k < |order| && order[k] !in s.links && order[k] !in base && c in cands[order[k]]) ==>
          !Accepts(checks, order[k], c)
      ensures outcome.Failed? ==> FirstUnknown(outcome.key, base, cands)
      ensures Run(files, order, lists, checks, base, log, assignments, positions, outcome.Failed?)
    {
      s, log, at := Search(map[], [], None), [], map[];
      assignments, positions := [], [];
      outcome := Continue;
      while outcome == Continue
        invariant Searching(comb, order, lists, cands, checks, s, log, at, base)
        invariant torrent == old(torrent)
        invariant outcome == Done ==> forall k, c ::
          (0 <= k < |order| && order[k] !in s.links && order[k] !in base && c in cands[order[k]]) ==>
            !Accepts(checks, order[k], c)
        invariant outcome.Failed? ==> FirstUnknown(outcome.key, base, cands)
        invariant Walked(files, order, lists, checks, base, log, assignments, positions, outcome,
                         comb.cursor[..], comb.locked[..], comb.started, comb.exhausted)
        decreases comb.Remaining(), if outcome == Continue then 1 else 0
      {
        outcome, s, log, at, assignments, positions :=
          Round(comb, files, cands, order, lists, checks, s, log, at, base, assignments, positions);
      }
    }

    /** The combinator over the candidate lists, before any assignment is verified. */
    method Begin(cands: map<string, seq<Candidate>>, order: seq<string>, lists: seq<seq<Candidate>>, checks: Checks)
      returns (comb: C.Combinator<string, Candidate>)
      requires Distinct(order) && (forall p :: p in order <==> p in cands) && lists == Lists(cands, order)
      requires forall p :: p in cands ==> cands[p] != []
      ensures fresh(comb) && fresh(comb.cursor) && fresh(comb.locked) && !comb.started
      ensures Searching(comb, order, lists, cands, checks, Search(map[], [], None), [], map[], foundFiles)
    {
      comb := new C.Combinator(order, lists);
      StartConsistent(cands, checks);
    }

    /**
     * One pass of the loop of `_get_download_location`, appended to the
     * record of the search: the trail and the steps so far, and, when the
     * search ends, why it ended.
     */
    method Round(comb: C.Combinator<string, Candidate>, files: seq<TorrentFile>, cands: map<string, seq<Candidate>>,
                 order: seq<string>, lists: seq<seq<Candidate>>, checks: Checks,
                 s: Search, ghost log: seq<(string, Candidate)>, ghost at: map<string, nat>, ghost base: set<string>,
                 ghost assignments: seq<seq<(string, Candidate)>>, ghost positions: seq<seq<nat>>)
      returns (outcome: Outcome, s': Search, ghost log': seq<(string, Candidate)>, ghost at': map<string, nat>,
               ghost assignments': seq<seq<(string, Candidate)>>, ghost positions': seq<seq<nat>>)
      requires (forall p :: p in order <==> p in cands) && lists == Lists(cands, order)
      requires forall p :: p in order ==> p in Paths(files)
      requires Searching(comb, order, lists, cands, checks, s, log, at, base)
      requires Walked(files, order, lists, checks, base, log, assignments, positions, Continue,
                      comb.cursor[..], comb.locked[..], comb.started, comb.exhausted)
      modifies this, comb, comb.cursor, comb.locked
      ensures Searching(comb, order, lists, cands, checks, s', log', at', base)
      ensures torrent == old(torrent)
      ensures comb.Remaining() <= old(comb.Remaining())
      ensures outcome == Continue ==> comb.Remaining() < old(comb.Remaining())
      ensures outcome == Done ==> forall k, c ::
        (0 <= k < |order| && order[k] !in s'.links && order[k] !in base && c in cands[order[k]]) ==>
          !Accepts(checks, order[k], c)
      ensures outcome.Failed? ==> FirstUnknown(outcome.key, base, cands)
      ensures Walked(files, order, lists, checks, base, log', assignments', positions', outcome,
                     comb.cursor[..], comb.locked[..], comb.started, comb.exhausted)
    {
      ghost var prev, locks, wasStarted, wasExhausted := comb.cursor[..], comb.locked[..], comb.started, comb.exhausted;
      ghost var pulled, pairs, cur;
      outcome, s', log', at', pulled, pairs, cur := Turn(comb, files, cands, order, lists, checks, s, log, at, base);
      WalkStep(files, order, lists, cands, checks, base, s', log, log', at', assignments, positions, outcome, pulled,
               pairs, cur, prev, locks, wasStarted, wasExhausted,
               comb.cursor[..], comb.locked[..], comb.started, comb.exhausted, foundFiles);
      assignments', positions' := assignments, positions;
      if pulled {
        assignments', positions' := assignments + [pairs], positions + [cur];
      }
    }

    /**
     * The body of one pass: the next assignment is verified; then the
     * search is done if every torrent file is confirmed or no assignment is
     * left, and otherwise locks the files found so far.
     */
    method Turn(comb: C.Combinator<string, Candidate>, files: seq<TorrentFile>, cands: map<string, seq<Candidate>>,
                order: seq<string>, lists: seq<seq<Candidate>>, checks: Checks,
                s: Search, ghost log: seq<(string, Candidate)>, ghost at: map<string, nat>, ghost base: set<string>)
      returns (outcome: Outcome, s': Search, ghost log': seq<(string, Candidate)>, ghost at': map<string, nat>,
               ghost pulled: bool, ghost pairs: seq<(string, Candidate)>, ghost cur: seq<nat>)
      requires (forall p :: p in order <==> p in cands) && lists == Lists(cands, order)
      requires forall p :: p in order ==> p in Paths(files)
      requires Searching(comb, order, lists, cands, checks, s, log, at, base)
      modifies this, comb, comb.cursor, comb.locked
      ensures Searching(comb, order, lists, cands, checks, s', log', at', base)
      ensures torrent == old(torrent)
      ensures comb.Remaining() <= old(comb.Remaining())
      ensures outcome == Continue ==> comb.Remaining() < old(comb.Remaining())
      ensures outcome == Done ==> forall k, c ::
        (0 <= k < |order| && order[k] !in s'.links && order[k] !in base && c in cands[order[k]]) ==>
          !Accepts(checks, order[k], c)
      ensures outcome.Failed? ==> FirstUnknown(outcome.key, base, cands)
      ensures Turned(files, order, lists, cands, checks, base, log, log', outcome, pulled, pairs, cur,
                     old(comb.cursor[..]), old(comb.locked[..]), old(comb.started), old(comb.exhausted),
                     comb.cursor[..], comb.locked[..], comb.started, comb.exhausted, foundFiles)
    {
      var more;
      more, s', log', at', pairs, cur := Pull(comb, cands, order, lists, checks, s, log, at, base);
      pulled := more;
      outcome := Conclude(comb, files, cands, order, lists, checks, s', log', at', base, more);
    }

    /** Settles the pass when it pulled an assignment; a pass with nothing to pull is done. */
    method Conclude(comb: C.Combinator<string, Candidate>, files: seq<TorrentFile>, cands: map<string, seq<Candidate>>,
                    order: seq<string>, lists: seq<seq<Candidate>>, checks: Checks,
                    s: Search, ghost log: seq<(string, Candidate)>, ghost at: map<string, nat>, ghost base: set<string>,
                    more: bool)
      returns (outcome: Outcome)
      requires (forall p :: p in order <==> p in cands)
      requires forall p :: p in order ==> p in Paths(files)
      requires Searching(comb, order, lists, cands, checks, s, log, at, base)
      modifies comb.locked
      ensures Searching(comb, order, lists, cands, checks, s, log, at, base)
      ensures comb.Remaining() == old(comb.Remaining())
      ensures !more ==> outcome == Done && comb.locked[..] == old(comb.locked[..])
      ensures more && outcome == Done ==> forall k :: 0 <= k < |order| ==> order[k] in s.links
      ensures outcome.Failed? ==> more && FirstUnknown(outcome.key, base, cands)
      ensures more ==> Settled(files, order, cands, checks, base, log, outcome, comb.locked[..], foundFiles)
    {
      if !more {
        return Done;
      }
      outcome := Settle(comb, files, cands, order, lists, checks, s, log, at, base);
    }

    /**
     * The end of a pass over one assignment: done when every torrent file
     * is confirmed, and otherwise the files confirmed so far are locked.
     */
    method Settle(comb: C.Combinator<string, Candidate>, files: seq<TorrentFile>, cands: map<string, seq<Candidate>>,
                  order: seq<string>, lists: seq<seq<Candidate>>, checks: Checks,
                  s: Search, ghost log: seq<(string, Candidate)>, ghost at: map<string, nat>, ghost base: set<string>)
      returns (outcome: Outcome)
      requires (forall p :: p in order <==> p in cands)
      requires forall p :: p in order ==> p in Paths(files)
      requires Searching(comb, order, lists, cands, checks, s, log, at, base)
      modifies comb.locked
      ensures Searching(comb, order, lists, cands, checks, s, log, at, base)
      ensures comb.Remaining() == old(comb.Remaining())
      ensures outcome == Done ==> forall k :: 0 <= k < |order| ==> order[k] in s.links
      ensures outcome.Failed? ==> FirstUnknown(outcome.key, base, cands)
      ensures Settled(files, order, cands, checks, base, log, outcome, comb.locked[..], foundFiles)
    {
      AllLinkedIffFound(files, cands, checks, s, log, at);
      if forall i :: 0 <= i < |files| ==> files[i].path in s.links {
        AllConfirmed(files, order, s.links);
        return Done;
      }
      var failed := LockFound(comb, cands, order, lists, checks, s, log, at, base);
      LinksAreKeys(cands, checks, s, log, at);
      if failed.Some? {
        FirstUnknownOfBase(failed.value, base, s.links.Keys, cands);
      }
      outcome := if failed.Some? then Failed(failed.value) else Continue;
    }

    /** Pulls the next assignment and verifies it; `more` is false when there was none. */
    method Pull(comb: C.Combinator<string, Candidate>, cands: map<string, seq<Candidate>>,
                order: seq<string>, lists: seq<seq<Candidate>>, checks: Checks,
                s: Search, ghost log: seq<(string, Candidate)>, ghost at: map<string, nat>, ghost base: set<string>)
      returns (more: bool, s': Search, ghost log': seq<(string, Candidate)>, ghost at': map<string, nat>,
               ghost pairs: seq<(string, Candidate)>, ghost cur: seq<nat>)
      requires (forall p :: p in order <==> p in cands) && lists == Lists(cands, order)
      requires Searching(comb, order, lists, cands, checks, s, log, at, base)
      modifies this, comb, comb.cursor
      ensures Searching(comb, order, lists, cands, checks, s', log', at', base)
      ensures torrent == old(torrent)
      ensures comb.Remaining() <= old(comb.Remaining())
      ensures more ==> comb.Remaining() < old(comb.Remaining())
      ensures comb.locked[..] == old(comb.locked[..])
      ensures Pulled(order, lists, checks, log, log', more, pairs, cur,
                     old(comb.cursor[..]), old(comb.locked[..]), old(comb.started), old(comb.exhausted),
                     comb.cursor[..], comb.started, comb.exhausted)
      ensures !more ==> s' == s
      ensures !more ==> forall k, c ::
        (0 <= k < |order| && order[k] !in s'.links && order[k] !in base && c in cands[order[k]]) ==>
          !Accepts(checks, order[k], c)
    {
      ghost var seen0 := comb.Seen;
      var next := Draw(comb, cands, order, lists, checks, s, log, at, base);
      more := next.Some?;
      pairs, cur := if next.Some? then next.value else [], comb.cursor[..];
      s', log', at' := VerifyNext(next, cands, order, lists, checks, s, log, at, base, comb.cursor[..], seen0, comb.Seen);
    }

    /** Verifies the pulled assignment, if there is one; without one nothing changes. */
    method VerifyNext(next: Option<seq<(string, Candidate)>>, cands: map<string, seq<Candidate>>, order: seq<string>,
                      lists: seq<seq<Candidate>>, checks: Checks,
                      s: Search, ghost log: seq<(string, Candidate)>, ghost at: map<string, nat>,
                      ghost base: set<string>, ghost cur: seq<nat>, ghost seen0: seq<set<Candidate>>,
                      ghost seen: seq<set<Candidate>>)
      returns (s': Search, ghost log': seq<(string, Candidate)>, ghost at': map<string, nat>)
      requires (forall p :: p in order ==> p in cands) && lists == Lists(cands, order)
      requires next.Some? ==> O.InBounds(cur, O.Sizes(lists)) && next.value == C.Pairs(order, lists, cur)
      requires next.Some? ==>
        |seen0| == |seen| == |order| && forall k :: 0 <= k < |order| ==> seen[k] == seen0[k] + {lists[k][cur[k]]}
      requires next.None? ==> seen == seen0
      requires Consistent(cands, checks, s, log, at) && foundFiles == base + s.links.Keys
      requires Rejected(order, checks, s.links, seen0)
      modifies this
      ensures Consistent(cands, checks, s', log', at') && foundFiles == base + s'.links.Keys
      ensures old(foundFiles) <= foundFiles
      ensures Rejected(order, checks, s'.links, seen)
      ensures torrent == old(torrent)
      ensures next.Some? ==> log' == log + Verifications(log, next.value, checks)
      ensures next.None? ==> s' == s && log' == log
    {
      s', log', at' := s, log, at;
      if next.Some? {
        s', log', at' := VerifyAssignment(next.value, cands, order, lists, checks, s, log, at, base, cur, seen0, seen);
      }
    }

    /**
     * `combinator.next()`: the next assignment, if any. When there is none,
     * every candidate of every file neither found nor locked has been
     * verified and rejected.
     */
    method Draw(comb: C.Combinator<string, Candidate>, cands: map<string, seq<Candidate>>,
                order: seq<string>, lists: seq<seq<Candidate>>, checks: Checks,
                s: Search, ghost log: seq<(string, Candidate)>, ghost at: map<string, nat>, ghost base: set<string>)
      returns (next: Option<seq<(string, Candidate)>>)
      requires (forall p :: p in order <==> p in cands) && lists == Lists(cands, order)
      requires Searching(comb, order, lists, cands, checks, s, log, at, base)
      modifies comb, comb.cursor
      ensures comb.Valid() && (comb.started || !comb.exhausted)
      ensures comb.locked[..] == old(comb.locked[..])
      ensures comb.Remaining() <= old(comb.Remaining())
      ensures next.Some? ==> comb.Remaining() < old(comb.Remaining())
      ensures Drawn(lists, next.Some?, old(comb.cursor[..]), old(comb.locked[..]), old(comb.started), old(comb.exhausted),
                    comb.cursor[..], comb.started, comb.exhausted)
      ensures next.Some? ==>
        && next.value == C.Pairs(order, lists, comb.cursor[..])
        && forall k :: 0 <= k < |order| ==> comb.Seen[k] == old(comb.Seen[k]) + {lists[k][comb.cursor[k]]}
      ensures next.None? ==> comb.Seen == old(comb.Seen)
      ensures next.None? ==> forall k, c ::
        (0 <= k < |order| && order[k] !in s.links && order[k] !in base && c in cands[order[k]]) ==>
          !Accepts(checks, order[k], c)
    {
      next := comb.Next();
      if next.None? {
        GaveUp(order, cands, lists, checks, s.links, comb.Seen, comb.locked[..], foundFiles, base);
      }
    }

    /**
     * Verifies the assignment at the cursors `cur`; the files it leaves
     * unconfirmed join the rejected ones, now that `seen` records it.
     */
    method VerifyAssignment(pairs: seq<(string, Candidate)>, cands: map<string, seq<Candidate>>, order: seq<string>,
                            lists: seq<seq<Candidate>>, checks: Checks,
                            s: Search, ghost log: seq<(string, Candidate)>, ghost at: map<string, nat>,
                            ghost base: set<string>, ghost cur: seq<nat>, ghost seen0: seq<set<Candidate>>,
                            ghost seen: seq<set<Candidate>>)
      returns (s': Search, ghost log': seq<(string, Candidate)>, ghost at': map<string, nat>)
      requires (forall p :: p in order ==> p in cands) && lists == Lists(cands, order)
      requires O.InBounds(cur, O.Sizes(lists)) && pairs == C.Pairs(order, lists, cur)
      requires |seen0| == |seen| == |order| && forall k :: 0 <= k < |order| ==> seen[k] == seen0[k] + {lists[k][cur[k]]}
      requires Consistent(cands, checks, s, log, at) && foundFiles == base + s.links.Keys
      requires Rejected(order, checks, s.links, seen0)
      modifies this
      ensures Consistent(cands, checks, s', log', at') && foundFiles == base + s'.links.Keys
      ensures old(foundFiles) <= foundFiles
      ensures Rejected(order, checks, s'.links, seen)
      ensures torrent == old(torrent)
      ensures log' == log + Verifications(log, pairs, checks)
      ensures forall j :: 0 <= j < |pairs| ==> pairs[j].0 in s'.links || !Accepts(checks, pairs[j].0, pairs[j].1)
    {
      PairsAreCandidates(cands, order, cur);
      s', log', at' := ConfirmAssignment(pairs, cands, checks, s, log, at, base);
      RejectedStep(order, lists, checks, s.links, s'.links, seen0, seen, cur, pairs);
    }

    /** The inner loop over one assignment, adding the files it confirms to the found files. */
    method ConfirmAssignment(pairs: seq<(string, Candidate)>, cands: map<string, seq<Candidate>>, checks: Checks,
                             s: Search, ghost log: seq<(string, Candidate)>, ghost at: map<string, nat>, ghost base: set<string>)
      returns (s': Search, ghost log': seq<(string, Candidate)>, ghost at': map<string, nat>)
      requires forall j :: 0 <= j < |pairs| ==> pairs[j].0 in cands && pairs[j].1 in cands[pairs[j].0]
      requires Consistent(cands, checks, s, log, at) && foundFiles == base + s.links.Keys
      modifies this
      ensures Consistent(cands, checks, s', log', at') && foundFiles == base + s'.links.Keys
      ensures Extends(s, s', log, log')
      ensures forall j :: 0 <= j < |pairs| ==> pairs[j].0 in s'.links || !Accepts(checks, pairs[j].0, pairs[j].1)
      ensures log' == log + Verifications(log, pairs, checks)
      ensures torrent == old(torrent)
    {
      var added;
      added, s', log', at' := Confirm(pairs, cands, checks, s, log, at);
      FoundStep(base, s.links, s'.links, added);
      foundFiles := foundFiles + added;
    }

    /** `combinator.lock(*sorted(self._found_files))`; the name that is not a key, if any. */
    method LockFound(comb: C.Combinator<string, Candidate>, cands: map<string, seq<Candidate>>,
                     order: seq<string>, lists: seq<seq<Candidate>>, checks: Checks,
                     s: Search, ghost log: seq<(string, Candidate)>, ghost at: map<string, nat>, ghost base: set<string>)
      returns (failed: Option<string>)
      requires forall p :: p in order <==> p in cands
      requires Searching(comb, order, lists, cands, checks, s, log, at, base)
      modifies comb.locked
      ensures Searching(comb, order, lists, cands, checks, s, log, at, base)
      ensures comb.Remaining() == old(comb.Remaining())
      ensures failed.Some? ==> failed.value in base && FirstUnknown(failed.value, foundFiles, cands)
      ensures failed.Some? <==> exists f :: f in foundFiles && f !in cands
      ensures failed.None? ==>
        forall k :: 0 <= k < |order| ==> comb.locked[k] == (old(comb.locked[k]) || order[k] in foundFiles)
    {
      var ks := SortedElements(foundFiles);
      var locked := comb.Lock(ks);
      ghost var p := C.KnownPrefix(ks, order);
      assert forall k :: 0 <= k < |order| && comb.locked[k] ==> order[k] in foundFiles by {
        forall k | 0 <= k < |order| && comb.locked[k] ensures order[k] in foundFiles {
          if !old(comb.locked[k]) {
            assert order[k] in ks[..p];
          }
        }
      }
      if locked.Err? {
        LinksAreKeys(cands, checks, s, log, at);
        assert locked.error.key == ks[p] && ks[p] in foundFiles && ks[p] !in order;
        FirstUnknownLeast(ks, order, p, foundFiles, cands);
        return Some(locked.error.key);
      }
      assert ks[..p] == ks;
      forall f | f in foundFiles ensures f in cands {
        var t :| 0 <= t < |ks| && ks[t] == f;
      }
      return None;
    }
  }

  /**
   * The inner loop of `_get_download_location` over one assignment: each
   * file not confirmed yet is verified with its candidate; a success
   * confirms it, sets the download location if none is set, and adds the
   * link from the candidate to the file below the download location.
   * `added` holds the files it confirmed, for the found files.
   */
  method Confirm(pairs: seq<(string, Candidate)>, cands: map<string, seq<Candidate>>, checks: Checks,
                 s: Search, ghost log: seq<(string, Candidate)>, ghost at: map<string, nat>)
    returns (added: set<string>, s': Search, ghost log': seq<(string, Candidate)>, ghost at': map<string, nat>)
    requires forall j :: 0 <= j < |pairs| ==> pairs[j].0 in cands && pairs[j].1 in cands[pairs[j].0]
    requires Consistent(cands, checks, s, log, at)
    ensures Consistent(cands, checks, s', log', at')
    ensures forall f :: f in s'.links <==> f in s.links || f in added
    ensures Extends(s, s', log, log')
    ensures forall j :: 0 <= j < |pairs| ==> pairs[j].0 in s'.links || !Accepts(checks, pairs[j].0, pairs[j].1)
    ensures log' == log + Verifications(log, pairs, checks)
  {
    added, s', log', at' := {}, s, log, at;
    var j := 0;
    assert log + Verifications(log, pairs[..0], checks) == log;
    while j < |pairs|
      invariant 0 <= j <= |pairs|
      invariant Consistent(cands, checks, s', log', at')
      invariant log' == log + Verifications(log, pairs[..j], checks)
      invariant forall f :: f in s'.links <==> f in s.links || f in added
      invariant Extends(s, s', log, log')
      invariant forall i :: 0 <= i < j ==> pairs[i].0 in s'.links || !Accepts(checks, pairs[i].0, pairs[i].1)
    {
      ghost var s0, log0, at0 := s', log', at';
      var ok;
      ok, s', log', at' := ConfirmPair(pairs[j].0, pairs[j].1, cands, checks, s', log', at');
      if ok {
        added := added + {pairs[j].0};
      }
      LinkedIffConfirmed(cands, checks, s0, log0, at0, pairs[j].0);
      LogStep(log, log0, log', pairs, j, checks, pairs[j].0 in s0.links);
      ExtendsTransitive(s, s0, s', log, log0, log');
      KeepsConfirmed(pairs, j, checks, s0, s');
      j := j + 1;
    }
    assert pairs[..j] == pairs;
  }

  lemma FoundStep(base: set<string>, links: map<string, (string, string)>, links': map<string, (string, string)>,
                  added: set<string>)
    requires forall f :: f in links' <==> f in links || f in added
    ensures base + links.Keys + added == base + links'.Keys
  {
  }

  lemma KeepsConfirmed(pairs: seq<(string, Candidate)>, j: nat, checks: Checks, s: Search, s': Search)
    requires j < |pairs|
    requires forall i :: 0 <= i < j ==> pairs[i].0 in s.links || !Accepts(checks, pairs[i].0, pairs[i].1)
    requires forall f :: f in s.links ==> f in s'.links
    requires pairs[j].0 in s'.links || !Accepts(checks, pairs[j].0, pairs[j].1)
    ensures forall i :: 0 <= i < j + 1 ==> pairs[i].0 in s'.links || !Accepts(checks, pairs[i].0, pairs[i].1)
  {
  }

  lemma ExtendsTransitive(s1: Search, s2: Search, s3: Search,
                          log1: seq<(string, Candidate)>, log2: seq<(string, Candidate)>, log3: seq<(string, Candidate)>)
    requires Extends(s1, s2, log1, log2) && Extends(s2, s3, log2, log3)
    ensures Extends(s1, s3, log1, log3)
  {
  }

  /**
   * One `(file, candidate)` pair of an assignment: a file not confirmed yet
   * is verified with the candidate; `added` says it was confirmed now, and
   * the caller then adds it to the found files.
   */
  method ConfirmPair(file: string, cand: Candidate, cands: map<string, seq<Candidate>>, checks: Checks,
                     s: Search, ghost log: seq<(string, Candidate)>, ghost at: map<string, nat>)
    returns (added: bool, s': Search, ghost log': seq<(string, Candidate)>, ghost at': map<string, nat>)
    requires file in cands && cand in cands[file]
    requires Consistent(cands, checks, s, log, at)
    ensures Consistent(cands, checks, s', log', at')
    ensures Extends(s, s', log, log')
    ensures s'.links.Keys == if added then s.links.Keys + {file} else s.links.Keys
    ensures added <==> file !in s.links && Accepts(checks, file, cand)
    ensures file in s'.links || !Accepts(checks, file, cand)
    ensures log' == if file in s.links then log else log + [(file, cand)]
  {
    if file in s.links {
      return false, s, log, at;
    }
    var verdict, _ := VerifyFile(checks(file, cand.filepath));
    added := verdict == Valid;
    s', log', at' := Record(file, cand, added, cands, checks, s, log, at);
    if added {
      assert file in s'.links.Keys;
    }
  }

  /** One verification of `cand` for `file`, which is not confirmed yet, and its outcome `ok`. */
  method Record(file: string, cand: Candidate, ok: bool, cands: map<string, seq<Candidate>>, checks: Checks,
                s: Search, ghost log: seq<(string, Candidate)>, ghost at: map<string, nat>)
    returns (s': Search, ghost log': seq<(string, Candidate)>, ghost at': map<string, nat>)
    requires file in cands && cand in cands[file] && file !in s.links
    requires ok == Accepts(checks, file, cand)
    requires Consistent(cands, checks, s, log, at)
    ensures Consistent(cands, checks, s', log', at')
    ensures log' == log + [(file, cand)]
    ensures Extends(s, s', log, log')
    ensures s'.links.Keys == if ok then s.links.Keys + {file} else s.links.Keys
    ensures !ok ==> s' == s
  {
    log' := log + [(file, cand)];
    s', at' := s, at;
    if ok {
      AcceptKeeps(file, cand, cands, checks, s, log, at);
      ConfirmedExtends(s, file, cand, log, log');
      s' := Confirmed(s, file, cand);
      at' := at[file := |log|];
    } else {
      RejectKeeps(file, cand, cands, checks, s, log, at);
    }
  }

  /** Confirming a new file keeps every link and the download location, and adds the file. */
  lemma ConfirmedExtends(s: Search, file: string, cand: Candidate,
                         log: seq<(string, Candidate)>, log': seq<(string, Candidate)>)
    requires file !in s.links && log' == log + [(file, cand)]
    ensures Extends(s, Confirmed(s, file, cand), log, log')
    ensures Confirmed(s, file, cand).links.Keys == s.links.Keys + {file}
  {
  }

  /** `for source, target in links_to_create.values(): self._create_hardlink(source, target)`, as a plan. */
  method PlanHardlinks(s: Search) returns (hardlinks: seq<(string, string)>)
    requires forall f :: f in s.linkOrder ==> f in s.links
    ensures hardlinks == Hardlinks(s)
  {
    hardlinks := [];
    var j := 0;
    while j < |s.linkOrder|
      invariant 0 <= j <= |s.linkOrder|
      invariant hardlinks == Hardlinks(s)[..j]
    {
      hardlinks := hardlinks + [s.links[s.linkOrder[j]]];
      j := j + 1;
    }
  }

  /** Every candidate the `Combinator` has shown for a file that is still unconfirmed was rejected. */
  ghost predicate Rejected(order: seq<string>, checks: Checks, links: map<string, (string, string)>, seen: seq<set<Candidate>>)
  {
    forall k, c :: 0 <= k < |order| && k < |seen| && c in seen[k] && order[k] !in links ==> !Accepts(checks, order[k], c)
  }

  lemma RejectedStep(order: seq<string>, lists: seq<seq<Candidate>>, checks: Checks,
                     links: map<string, (string, string)>, links': map<string, (string, string)>,
                     seen: seq<set<Candidate>>, seen': seq<set<Candidate>>, cur: seq<nat>, pairs: seq<(string, Candidate)>)
    requires |seen| == |seen'| == |order| == |lists| == |pairs| == |cur|
    requires forall k :: 0 <= k < |order| ==> cur[k] < |lists[k]| && pairs[k] == (order[k], lists[k][cur[k]])
    requires forall k :: 0 <= k < |order| ==> seen'[k] == seen[k] + {lists[k][cur[k]]}
    requires Rejected(order, checks, links, seen)
    requires forall f :: f in links ==> f in links'
    requires forall j :: 0 <= j < |pairs| ==> pairs[j].0 in links' || !Accepts(checks, pairs[j].0, pairs[j].1)
    ensures Rejected(order, checks, links', seen')
  {
    forall k, c | 0 <= k < |order| && c in seen'[k] && order[k] !in links'
      ensures !Accepts(checks, order[k], c)
    {
      if c != lists[k][cur[k]] {
        assert c in seen[k];
      }
    }
  }

  /** With no assignment left, an unconfirmed file that was not locked beforehand had all its candidates rejected. */
  lemma GaveUp(order: seq<string>, cands: map<string, seq<Candidate>>, lists: seq<seq<Candidate>>, checks: Checks,
               links: map<string, (string, string)>, seen: seq<set<Candidate>>, locked: seq<bool>,
               found: set<string>, base: set<string>)
    requires |order| == |lists| == |seen| == |locked|
    requires forall k :: 0 <= k < |order| ==> order[k] in cands && lists[k] == cands[order[k]]
    requires forall k, v :: 0 <= k < |order| && !locked[k] && 0 <= v < |lists[k]| ==> lists[k][v] in seen[k]
    requires Rejected(order, checks, links, seen)
    requires forall k :: 0 <= k < |order| && locked[k] ==> order[k] in found
    requires found == base + links.Keys
    ensures forall k, c ::
      (0 <= k < |order| && order[k] !in links && order[k] !in base && c in cands[order[k]]) ==>
        !Accepts(checks, order[k], c)
  {
    forall k, c | 0 <= k < |order| && order[k] !in links && order[k] !in base && c in cands[order[k]]
      ensures !Accepts(checks, order[k], c)
    {
      var v :| 0 <= v < |lists[k]| && lists[k][v] == c;
      assert c in seen[k];
    }
  }

  /** Once every torrent file is confirmed, so is every key. */
  lemma AllConfirmed(files: seq<TorrentFile>, order: seq<string>, links: map<string, (string, string)>)
    requires forall p :: p in order ==> p in Paths(files)
    requires forall i :: 0 <= i < |files| ==> files[i].path in links
    ensures forall k :: 0 <= k < |order| ==> order[k] in links
  {
    forall k | 0 <= k < |order| ensures order[k] in links {
      assert order[k] in Paths(files);
    }
  }

  /** An assignment pairs each key with one of its own candidates. */
  lemma PairsAreCandidates(cands: map<string, seq<Candidate>>, order: seq<string>, cur: seq<nat>)
    requires (forall p :: p in order ==> p in cands) && O.InBounds(cur, O.Sizes(Lists(cands, order)))
    ensures forall j :: 0 <= j < |order| ==>
      cur[j] < |cands[order[j]]| && C.Pairs(order, Lists(cands, order), cur)[j] == (order[j], cands[order[j]][cur[j]])
    ensures forall j :: 0 <= j < |order| ==>
      var pair := C.Pairs(order, Lists(cands, order), cur)[j]; pair.0 in cands && pair.1 in cands[pair.0]
  {
    var pairs := C.Pairs(order, Lists(cands, order), cur);
    forall j | 0 <= j < |order| ensures pairs[j] == (order[j], cands[order[j]][cur[j]]) {
      assert pairs[j].1 == O.Pick(Lists(cands, order), cur)[j];
    }
  }

  /** When every key is linked and only keys are, there is one hard link per key. */
  lemma AllKeysLinked(order: seq<string>, s: Search)
    requires Distinct(order) && Distinct(s.linkOrder)
    requires forall f :: f in s.linkOrder <==> f in order
    ensures |s.linkOrder| == |order|
  {
    assert (set f | f in order) == (set f | f in s.linkOrder);
    DistinctCard(order);
    DistinctCard(s.linkOrder);
  }

  lemma {:induction false} DistinctCard(xs: seq<string>)
    requires Distinct(xs)
    ensures |set x | x in xs| == |xs|
  {
    if xs != [] {
      DistinctCard(xs[1..]);
      assert (set x | x in xs) == (set x | x in xs[1..]) + {xs[0]};
      assert xs[0] !in xs[1..];
    }
  }

  /**
   * `key` is the least found file, in Python's string order, that is not a
   * key: the name `lock(*sorted(found))` fails on.
   */
  ghost predicate FirstUnknown(key: string, found: set<string>, cands: map<string, seq<Candidate>>)
  {
    key in found && key !in cands && forall g :: g in found && g !in cands ==> LessEq(key, g)
  }

  /** In a sorted listing, the first name that is not a key precedes every other such name. */
  lemma FirstUnknownLeast(ks: seq<string>, order: seq<string>, p: nat, found: set<string>,
                          cands: map<string, seq<Candidate>>)
    requires Sorted(ks) && (forall x :: x in ks <==> x in found) && (forall x :: x in order <==> x in cands)
    requires p < |ks| && ks[p] !in order && forall t :: 0 <= t < p ==> ks[t] in order
    ensures FirstUnknown(ks[p], found, cands)
  {
    forall g | g in found && g !in cands
      ensures LessEq(ks[p], g)
    {
      var t :| 0 <= t < |ks| && ks[t] == g;
      if t == p {
        LessEqReflexive(g);
      }
    }
  }

  /** The found files are the earlier ones plus keys, so the least one that is not a key is an earlier one. */
  lemma FirstUnknownOfBase(key: string, base: set<string>, links: set<string>, cands: map<string, seq<Candidate>>)
    requires forall f :: f in links ==> f in cands
    ensures FirstUnknown(key, base + links, cands) <==> FirstUnknown(key, base, cands)
  {
  }

  /** Only keys get confirmed. */
  lemma LinksAreKeys(cands: map<string, seq<Candidate>>, checks: Checks, s: Search,
                     log: seq<(string, Candidate)>, at: map<string, nat>)
    requires Consistent(cands, checks, s, log, at)
    ensures forall f :: f in s.links ==> f in cands
  {
  }

  /** The first location found is one of the locations every verified candidate comes from. */
  lemma {:induction false} FirstFoundIn(log: seq<(string, Candidate)>, checks: Checks, locations: seq<string>)
    requires forall i :: 0 <= i < |log| ==> log[i].1.location in locations
    ensures FirstFound(log, checks).Some? ==> FirstFound(log, checks).value in locations
  {
    if log != [] {
      FirstFoundIn(log[..|log| - 1], checks, locations);
    }
  }

  /** A torrent file with a size match has at least one ranked candidate, each from a given location. */
  lemma RankedFromLocations(entries: seq<Entry>, f: TorrentFile, stat: string -> Stat, sim: (string, string) -> real,
                            locations: seq<string>)
    requires forall e :: e in entries ==> e.location in locations
    requires FirstHit(entries, f, stat) < |entries|
    ensures Best(Matches(entries, f, stat, sim)) != []
    ensures forall c :: c in Best(Matches(entries, f, stat, sim)) ==> c.location in locations
  {
    var m := Matches(entries, f, stat, sim);
    MatchesNonEmpty(entries, f, stat, sim);
    BestIsTopThree(m);
    forall c | c in Best(m) ensures c.location in locations {
      assert c in multiset(m);
      MatchesAreSizeMatches(entries, f, stat, sim, c);
    }
  }
}
