/**
 * The lockable Cartesian-product enumerator (`Combinator`).
 *
 * It is built from named candidate lists, keys in insertion order, and hands
 * out one assignment per pull: a `(key, item)` pair for every key. The last
 * key varies fastest and the first key slowest. `Lock` freezes keys at their
 * current item, before or between pulls; the keys that are still unlocked go
 * on from where they are. The order of positions is `Odometer.Step`.
 */
module Combinator {
  import opened Wrappers
  import opened Odometer
  import opened Collections

  /** `RuntimeError("Cannot exclude unknown key: <key>")`. */
  datatype LockError<K> = UnknownKey(key: K)

  /** The assignment the cursors denote: every key with the item its cursor points at. */
  function Pairs<K, V>(keys: seq<K>, lists: seq<seq<V>>, cur: seq<nat>): (r: seq<(K, V)>)
    requires |keys| == |lists| && InBounds(cur, Sizes(lists))
    ensures |r| == |keys|
    ensures forall i :: 0 <= i < |r| ==> r[i].0 == keys[i] && r[i].1 == Pick(lists, cur)[i]
  {
    seq(|keys|, i requires 0 <= i < |keys| => (keys[i], lists[i][cur[i]]))
  }

  /** How many of `ks`, from the front, are registered keys. */
  function KnownPrefix<K(==)>(ks: seq<K>, keys: seq<K>): (p: nat)
    ensures p <= |ks|
    ensures forall t :: 0 <= t < p ==> ks[t] in keys
    ensures p < |ks| ==> ks[p] !in keys
  {
    if ks == [] || ks[0] !in keys then 0 else 1 + KnownPrefix(ks[1..], keys)
  }

  /** Records that every key's current item has appeared. */
  ghost function Visit<V>(seen: seq<set<V>>, lists: seq<seq<V>>, cur: seq<nat>): (r: seq<set<V>>)
    requires |seen| == |lists| && InBounds(cur, Sizes(lists))
    ensures |r| == |seen|
    ensures forall k :: 0 <= k < |r| ==> r[k] == seen[k] + {lists[k][cur[k]]}
  {
    seq(|seen|, k requires 0 <= k < |seen| => seen[k] + {lists[k][cur[k]]})
  }

  /** Every unlocked key has shown every item up to its cursor. */
  ghost predicate SeenUpTo<V>(seen: seq<set<V>>, lists: seq<seq<V>>, cur: seq<nat>, locked: seq<bool>)
    requires |seen| == |lists| == |locked| && InBounds(cur, Sizes(lists))
  {
    forall k, v :: 0 <= k < |lists| && !locked[k] && 0 <= v <= cur[k] ==> lists[k][v] in seen[k]
  }

  /** A move keeps `SeenUpTo` once the new position has been visited. */
  lemma BumpKeepsSeen<V>(lists: seq<seq<V>>, before: seq<nat>, locked: seq<bool>, i: nat, seen: seq<set<V>>)
    requires |seen| == |lists| == |locked| && InBounds(before, Sizes(lists))
    requires i < |before| && Carriable(before, Sizes(lists), locked, i)
    requires SeenUpTo(seen, lists, before, locked)
    requires InBounds(Bump(before, locked, i), Sizes(lists))
    ensures SeenUpTo(Visit(seen, lists, Bump(before, locked, i)), lists, Bump(before, locked, i), locked)
  {
    var after := Bump(before, locked, i);
    forall k, v | 0 <= k < |lists| && !locked[k] && 0 <= v <= after[k]
      ensures lists[k][v] in Visit(seen, lists, after)[k]
    {
      if k < i {
        assert after[k] == before[k];
      } else if k > i {
        assert after[k] == 0;
      }
    }
  }

  /** When no unlocked key can move, each of them has shown every item. */
  lemma StuckCoversAll<V>(lists: seq<seq<V>>, cur: seq<nat>, locked: seq<bool>, seen: seq<set<V>>)
    requires |seen| == |lists| == |locked| && InBounds(cur, Sizes(lists))
    requires SeenUpTo(seen, lists, cur, locked)
    requires forall j :: 0 <= j < |cur| ==> !Carriable(cur, Sizes(lists), locked, j)
    ensures forall k, v :: 0 <= k < |lists| && !locked[k] && 0 <= v < |lists[k]| ==> lists[k][v] in seen[k]
  {
    forall k, v | 0 <= k < |lists| && !locked[k] && 0 <= v < |lists[k]|
      ensures lists[k][v] in seen[k]
    {
      assert !Carriable(cur, Sizes(lists), locked, k);
    }
  }

  class Combinator<K(==), V> {
    const keys: seq<K>
    const lists: seq<seq<V>>
    /** Per key, the index of its current item. */
    const cursor: array<nat>
    /** Per key, whether it is frozen. */
    const locked: array<bool>
    /** The first assignment has been handed out. */
    var started: bool
    /** No further assignment will be handed out. */
    var exhausted: bool
    /** Per key, the items that have appeared in a handed-out assignment. */
    ghost var Seen: seq<set<V>>

    ghost predicate Valid()
      reads this, cursor, locked
    {
      && |keys| == |lists| == |Seen|
      && cursor.Length == |keys| && locked.Length == |keys|
      && Distinct(keys)
      && (!exhausted ==> InBounds(cursor[..], Sizes(lists)))
      && (!started && !exhausted ==> cursor[..] == Zeros(|keys|))
      && (started && !exhausted ==> SeenUpTo(Seen, lists, cursor[..], locked[..]))
      && (started && exhausted ==>
            forall k, v :: 0 <= k < |keys| && !locked[k] && 0 <= v < |lists[k]| ==> lists[k][v] in Seen[k])
    }

    /** Assignments still to come, at most: it drops with every pull that yields one. */
    ghost function Remaining(): nat
      reads this, cursor, locked
      requires Valid()
    {
      if exhausted then 0
      else
        IndexBound(cursor[..], Sizes(lists));
        var left := Radix(Sizes(lists)) - Index(cursor[..], Sizes(lists));
        if started then left else left + 1
    }

    constructor (keys: seq<K>, lists: seq<seq<V>>)
      requires |keys| == |lists| && Distinct(keys)
      ensures Valid() && fresh(cursor) && fresh(locked)
      ensures this.keys == keys && this.lists == lists && !started
      ensures cursor[..] == Zeros(|keys|) && locked[..] == NoLocks(|keys|)
      ensures exhausted <==> exists i :: 0 <= i < |lists| && lists[i] == []
      ensures forall k :: 0 <= k < |Seen| ==> Seen[k] == {}
    {
      this.keys := keys;
      this.lists := lists;
      cursor := new nat[|keys|](_ => 0);
      locked := new bool[|keys|](_ => false);
      started := false;
      exhausted := exists i :: 0 <= i < |lists| && lists[i] == [];
      Seen := seq(|keys|, _ => {});
    }

    /**
     * Hands out the next assignment, or None when there is none. The first
     * pull yields every key's first item; each later one moves the odometer.
     */
    method Next() returns (r: Option<seq<(K, V)>>)
      requires Valid()
      modifies this, cursor
      ensures Valid()
      ensures locked[..] == old(locked[..])
      ensures r.Some? ==> !exhausted && r.value == Pairs(keys, lists, cursor[..])
      ensures r.Some? ==> Remaining() < old(Remaining())
      ensures r.Some? ==> forall k :: 0 <= k < |keys| ==> Seen[k] == old(Seen[k]) + {lists[k][cursor[k]]}
      ensures r.None? ==> exhausted && Seen == old(Seen)
      ensures old(exhausted) ==> r.None?
      ensures started == (old(started) || r.Some?)
      ensures !old(exhausted) && !old(started) ==> r.Some? && cursor[..] == old(cursor[..])
      ensures !old(exhausted) && old(started) ==>
        match Step(old(cursor[..]), Sizes(lists), locked[..])
        case None => r.None?
        case Some(n) => r.Some? && cursor[..] == n
    {
      if exhausted {
        return None;
      }
      var sizes := Sizes(lists);
      if !started {
        started := true;
        Seen := Visit(Seen, lists, cursor[..]);
        return Some(Pairs(keys, lists, cursor[..]));
      }
      ghost var before := cursor[..];
      var i := RightmostCarriable();
      if i < 0 {
        assert forall j :: i < j < |keys| ==> !Carriable(cursor[..], Sizes(lists), locked[..], j);
        StepIsStuck(before, sizes, locked[..]);
        StuckCoversAll(lists, before, locked[..], Seen);
        exhausted := true;
        return None;
      }
      StepIsRightmostBump(before, sizes, locked[..], i);
      StepKeepsLocked(before, sizes, locked[..]);
      StepIncreases(before, sizes, locked[..]);
      Advance(i);
      ghost var after := cursor[..];
      ghost var seen := Seen;
      Seen := Visit(seen, lists, after);
      BumpKeepsSeen(lists, before, locked[..], i, seen);
      r := Some(Pairs(keys, lists, cursor[..]));
    }

    /** The right-most key that can move on, or -1 when none can. */
    method RightmostCarriable() returns (i: int)
      requires Valid() && !exhausted
      ensures -1 <= i < |keys|
      ensures i >= 0 ==> Carriable(cursor[..], Sizes(lists), locked[..], i)
      ensures forall j :: i < j < |keys| ==> !Carriable(cursor[..], Sizes(lists), locked[..], j)
    {
      i := cursor.Length - 1;
      while i >= 0 && !(!locked[i] && cursor[i] + 1 < |lists[i]|)
        invariant -1 <= i < cursor.Length
        invariant forall j :: i < j < cursor.Length ==> !Carriable(cursor[..], Sizes(lists), locked[..], j)
      {
        i := i - 1;
      }
    }

    /** Moves key `i` on and restarts the unlocked keys after it. */
    method Advance(i: nat)
      requires cursor.Length == locked.Length && i < cursor.Length
      modifies cursor
      ensures cursor[..] == Bump(old(cursor[..]), locked[..], i)
    {
      ghost var after := Bump(cursor[..], locked[..], i);
      ghost var before := cursor[..];
      cursor[i] := cursor[i] + 1;
      var j := i + 1;
      while j < cursor.Length
        invariant i + 1 <= j <= cursor.Length
        invariant forall t :: 0 <= t < cursor.Length ==> cursor[t] == if t < j then after[t] else before[t]
      {
        if !locked[j] {
          cursor[j] := 0;
        }
        j := j + 1;
      }
      assert cursor[..] == after;
    }

    /**
     * Freezes the named keys, in order. At the first name that is not a key
     * it stops with an error; the names before it stay locked.
     */
    method Lock(ks: seq<K>) returns (r: Result<(), LockError<K>>)
      requires Valid()
      modifies locked
      ensures Valid() && Remaining() == old(Remaining())
      ensures var p := KnownPrefix(ks, keys);
        && (r.Err? <==> p < |ks|)
        && (r.Err? ==> r.error == UnknownKey(ks[p]))
        && forall k :: 0 <= k < |keys| ==> locked[k] == (old(locked[k]) || keys[k] in ks[..p])
    {
      ghost var p := KnownPrefix(ks, keys);
      var t := 0;
      while t < |ks|
        invariant 0 <= t <= p
        invariant forall k :: 0 <= k < |keys| ==> locked[k] == (old(locked[k]) || keys[k] in ks[..t])
        invariant Valid()
      {
        if ks[t] !in keys {
          return Err(UnknownKey(ks[t]));
        }
        var k := IndexOf(keys, ks[t]);
        locked[k] := true;
        assert ks[..t + 1] == ks[..t] + [ks[t]];
        t := t + 1;
      }
      return Ok(());
    }
  }
}
