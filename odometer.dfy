/**
 * The arithmetic behind the lockable Cartesian-product enumerator.
 *
 * A position of the enumerator is a vector of cursors, one per key, in the
 * keys' insertion order. The first key is the most significant digit and the
 * last key the least significant one, so the vector reads as a number in a
 * mixed radix whose digit bases are the lengths of the candidate lists.
 * `Step` is one move of the odometer: the right-most unlocked key that can
 * still advance does so, and every unlocked key to its right starts over.
 */
module Odometer {
  import opened Wrappers

  /** Every cursor points into its own list. */
  predicate InBounds(cur: seq<nat>, sizes: seq<nat>)
  {
    |cur| == |sizes| && forall i :: 0 <= i < |cur| ==> cur[i] < sizes[i]
  }

  /** Number of assignments in the full product. */
  function Radix(sizes: seq<nat>): nat
  {
    if sizes == [] then 1 else sizes[0] * Radix(sizes[1..])
  }

  /** Position of `cur` in the odometer order (first key most significant). */
  function Index(cur: seq<nat>, sizes: seq<nat>): nat
    requires |cur| == |sizes|
  {
    if cur == [] then 0 else cur[0] * Radix(sizes[1..]) + Index(cur[1..], sizes[1..])
  }

  /** Key `i` can move on: it is not locked and its list has a next item. */
  predicate Carriable(cur: seq<nat>, sizes: seq<nat>, locked: seq<bool>, i: int)
    requires |cur| == |sizes| == |locked|
    requires 0 <= i < |cur|
  {
    !locked[i] && cur[i] + 1 < sizes[i]
  }

  /** Unlocked cursors start over at their first item; locked ones stay. */
  function Reset(cur: seq<nat>, locked: seq<bool>): (r: seq<nat>)
    requires |cur| == |locked|
    ensures |r| == |cur|
    ensures forall i :: 0 <= i < |r| ==> r[i] == if locked[i] then cur[i] else 0
  {
    seq(|cur|, i requires 0 <= i < |cur| => if locked[i] then cur[i] else 0)
  }

  /** The cursors after advancing key `i` and restarting the unlocked keys after it. */
  function Bump(cur: seq<nat>, locked: seq<bool>, i: nat): seq<nat>
    requires |cur| == |locked|
    requires i < |cur|
  {
    cur[..i] + [cur[i] + 1] + Reset(cur[i + 1..], locked[i + 1..])
  }

  /**
   * One move of the odometer, or None when no unlocked key can move on.
   * The keys after the first are tried first, so the last key varies fastest.
   */
  function Step(cur: seq<nat>, sizes: seq<nat>, locked: seq<bool>): (r: Option<seq<nat>>)
    requires |cur| == |sizes| == |locked|
    ensures r.Some? ==> |r.value| == |cur|
  {
    if cur == [] then None
    else match Step(cur[1..], sizes[1..], locked[1..])
      case Some(t) => Some([cur[0]] + t)
      case None =>
        if !locked[0] && cur[0] + 1 < sizes[0]
        then Some([cur[0] + 1] + Reset(cur[1..], locked[1..]))
        else None
  }

  /** The item each cursor points at. */
  function Pick<V>(lists: seq<seq<V>>, cur: seq<nat>): (r: seq<V>)
    requires InBounds(cur, Sizes(lists))
    ensures |r| == |lists|
  {
    seq(|lists|, i requires 0 <= i < |lists| => lists[i][cur[i]])
  }

  function Sizes<V>(lists: seq<seq<V>>): (r: seq<nat>)
    ensures |r| == |lists|
    ensures forall i :: 0 <= i < |lists| ==> r[i] == |lists[i]|
  {
    seq(|lists|, i requires 0 <= i < |lists| => |lists[i]|)
  }

  /** Reference definition of the product: nested loops, first key outermost. */
  function Product<V>(lists: seq<seq<V>>): seq<seq<V>>
  {
    if lists == [] then [[]] else Prepend(lists[0], Product(lists[1..]))
  }

  /** For each head in order, every tail in order prefixed by that head. */
  function Prepend<V>(heads: seq<V>, tails: seq<seq<V>>): seq<seq<V>>
  {
    if heads == [] then []
    else seq(|tails|, j requires 0 <= j < |tails| => [heads[0]] + tails[j]) + Prepend(heads[1..], tails)
  }

  /** All cursors at their first item: the first position of the enumeration. */
  function Zeros(n: nat): (r: seq<nat>)
    ensures |r| == n && forall i :: 0 <= i < n ==> r[i] == 0
  {
    seq(n, i => 0)
  }

  function NoLocks(n: nat): (r: seq<bool>)
    ensures |r| == n && forall i :: 0 <= i < n ==> !r[i]
  {
    seq(n, i => false)
  }

  /** Cursors after `k` moves without any lock, or None once the product is exhausted. */
  function Trace(sizes: seq<nat>, k: nat): Option<seq<nat>>
  {
    if k == 0 then
      (if forall i :: 0 <= i < |sizes| ==> sizes[i] > 0 then Some(Zeros(|sizes|)) else None)
    else match Trace(sizes, k - 1)
      case None => None
      case Some(c) => if |c| == |sizes| then Step(c, sizes, NoLocks(|sizes|)) else None
  }

  // ---------------------------------------------------------------------------
  // Lemmas
  // ---------------------------------------------------------------------------

  lemma {:induction false} RadixPositive(sizes: seq<nat>)
    requires forall i :: 0 <= i < |sizes| ==> sizes[i] > 0
    ensures Radix(sizes) > 0
  {
    if sizes != [] {
      RadixPositive(sizes[1..]);
    }
  }

  /** An in-bounds cursor vector denotes one of the `Radix(sizes)` positions. */
  lemma {:induction false} IndexBound(cur: seq<nat>, sizes: seq<nat>)
    requires InBounds(cur, sizes)
    ensures Index(cur, sizes) < Radix(sizes)
  {
    if cur != [] {
      var r := Radix(sizes[1..]);
      IndexBound(cur[1..], sizes[1..]);
      assert Index(cur, sizes) < cur[0] * r + r;
      assert cur[0] * r + r == (cur[0] + 1) * r;
      assert (cur[0] + 1) * r <= sizes[0] * r by {
        MulMono(cur[0] + 1, sizes[0], r);
      }
    }
  }

  lemma MulMono(a: nat, b: nat, r: nat)
    requires a <= b
    ensures a * r <= b * r
  {
  }

  lemma {:induction false} IndexOfZeros(cur: seq<nat>, sizes: seq<nat>)
    requires |cur| == |sizes|
    requires forall i :: 0 <= i < |cur| ==> cur[i] == 0
    ensures Index(cur, sizes) == 0
  {
    if cur != [] {
      IndexOfZeros(cur[1..], sizes[1..]);
    }
  }

  /** The leading digit of a mixed-radix number is determined by its value. */
  lemma LeadingDigitUnique(a0: nat, b0: nat, x: nat, y: nat, r: nat)
    requires x < r && y < r
    requires a0 * r + x == b0 * r + y
    ensures a0 == b0
  {
    if a0 < b0 {
      MulMono(a0 + 1, b0, r);
    } else if b0 < a0 {
      MulMono(b0 + 1, a0, r);
    }
  }

  /** Distinct in-bounds cursor vectors have distinct positions. */
  lemma {:induction false} IndexInjective(a: seq<nat>, b: seq<nat>, sizes: seq<nat>)
    requires InBounds(a, sizes) && InBounds(b, sizes)
    requires Index(a, sizes) == Index(b, sizes)
    ensures a == b
  {
    if a != [] {
      var r := Radix(sizes[1..]);
      IndexBound(a[1..], sizes[1..]);
      IndexBound(b[1..], sizes[1..]);
      LeadingDigitUnique(a[0], b[0], Index(a[1..], sizes[1..]), Index(b[1..], sizes[1..]), r);
      IndexInjective(a[1..], b[1..], sizes[1..]);
      assert a == [a[0]] + a[1..];
      assert b == [b[0]] + b[1..];
    }
  }

  /** A move keeps the cursors in bounds and never touches a locked key. */
  lemma {:induction false} StepKeepsLocked(cur: seq<nat>, sizes: seq<nat>, locked: seq<bool>)
    requires InBounds(cur, sizes) && |locked| == |cur|
    ensures Step(cur, sizes, locked).Some? ==>
      var n := Step(cur, sizes, locked).value;
      InBounds(n, sizes) &&
      forall i :: 0 <= i < |n| && locked[i] ==> n[i] == cur[i]
  {
    if cur != [] {
      StepKeepsLocked(cur[1..], sizes[1..], locked[1..]);
    }
  }

  /** A move goes strictly forward in the odometer order, locks or no locks. */
  lemma {:induction false} StepIncreases(cur: seq<nat>, sizes: seq<nat>, locked: seq<bool>)
    requires InBounds(cur, sizes) && |locked| == |cur|
    requires Step(cur, sizes, locked).Some?
    ensures |Step(cur, sizes, locked).value| == |cur|
    ensures Index(Step(cur, sizes, locked).value, sizes) > Index(cur, sizes)
  {
    var n := Step(cur, sizes, locked).value;
    var r := Radix(sizes[1..]);
    StepKeepsLocked(cur, sizes, locked);
    match Step(cur[1..], sizes[1..], locked[1..])
    case Some(t) =>
      StepIncreases(cur[1..], sizes[1..], locked[1..]);
      assert n[1..] == t;
    case None =>
      IndexBound(cur[1..], sizes[1..]);
      assert n[1..] == Reset(cur[1..], locked[1..]);
      assert Index(n, sizes) >= (cur[0] + 1) * r;
  }

  /** Without locks a move goes to the very next position, and there is none only at the last one. */
  lemma {:induction false} StepIsSuccessor(cur: seq<nat>, sizes: seq<nat>)
    requires InBounds(cur, sizes)
    ensures Step(cur, sizes, NoLocks(|cur|)).None? <==> Index(cur, sizes) + 1 == Radix(sizes)
    ensures Step(cur, sizes, NoLocks(|cur|)).Some? ==>
      Index(Step(cur, sizes, NoLocks(|cur|)).value, sizes) == Index(cur, sizes) + 1
  {
    var free := NoLocks(|cur|);
    if cur != [] {
      assert free[1..] == NoLocks(|cur| - 1);
      StepIsSuccessor(cur[1..], sizes[1..]);
      if Step(cur[1..], sizes[1..], free[1..]).Some? {
        SuccessorInner(cur, sizes);
      } else {
        SuccessorCarry(cur, sizes);
      }
    }
  }

  /** The successor step when a later key moves: the leading digit stays. */
  lemma SuccessorInner(cur: seq<nat>, sizes: seq<nat>)
    requires InBounds(cur, sizes) && cur != []
    requires Step(cur[1..], sizes[1..], NoLocks(|cur| - 1)).Some?
    requires Index(Step(cur[1..], sizes[1..], NoLocks(|cur| - 1)).value, sizes[1..]) == Index(cur[1..], sizes[1..]) + 1
    ensures Step(cur, sizes, NoLocks(|cur|)).Some?
    ensures Index(Step(cur, sizes, NoLocks(|cur|)).value, sizes) == Index(cur, sizes) + 1
    ensures Index(cur, sizes) + 1 < Radix(sizes)
  {
    var free := NoLocks(|cur|);
    assert free[1..] == NoLocks(|cur| - 1);
    var inner := Step(cur[1..], sizes[1..], free[1..]);
    StepKeepsLocked(cur, sizes, free);
    var n := Step(cur, sizes, free).value;
    assert n == [cur[0]] + inner.value;
    assert n[1..] == inner.value;
    IndexBound(n, sizes);
  }

  /** The successor step when no later key moves: the leading digit carries, or the end is reached. */
  lemma SuccessorCarry(cur: seq<nat>, sizes: seq<nat>)
    requires InBounds(cur, sizes) && cur != []
    requires Step(cur[1..], sizes[1..], NoLocks(|cur| - 1)).None?
    requires Index(cur[1..], sizes[1..]) + 1 == Radix(sizes[1..])
    ensures Step(cur, sizes, NoLocks(|cur|)).None? <==> Index(cur, sizes) + 1 == Radix(sizes)
    ensures Step(cur, sizes, NoLocks(|cur|)).Some? ==>
      Index(Step(cur, sizes, NoLocks(|cur|)).value, sizes) == Index(cur, sizes) + 1
  {
    if cur[0] + 1 < sizes[0] {
      SuccessorBumpsHead(cur, sizes);
    } else {
      var free := NoLocks(|cur|);
      assert free[1..] == NoLocks(|cur| - 1);
      assert Step(cur, sizes, free).None?;
      LastArithmetic(cur[0], sizes[0], Radix(sizes[1..]), Index(cur[1..], sizes[1..]));
    }
  }

  /** The leading key moves on and every later key starts over. */
  lemma SuccessorBumpsHead(cur: seq<nat>, sizes: seq<nat>)
    requires InBounds(cur, sizes) && cur != [] && cur[0] + 1 < sizes[0]
    requires Step(cur[1..], sizes[1..], NoLocks(|cur| - 1)).None?
    requires Index(cur[1..], sizes[1..]) + 1 == Radix(sizes[1..])
    ensures Step(cur, sizes, NoLocks(|cur|)).Some?
    ensures Index(Step(cur, sizes, NoLocks(|cur|)).value, sizes) == Index(cur, sizes) + 1
    ensures Index(cur, sizes) + 1 < Radix(sizes)
  {
    var free := NoLocks(|cur|);
    assert free[1..] == NoLocks(|cur| - 1);
    var n := Step(cur, sizes, free).value;
    assert n == [cur[0] + 1] + Reset(cur[1..], free[1..]);
    IndexOfZeros(n[1..], sizes[1..]);
    CarryArithmetic(cur[0], sizes[0], Radix(sizes[1..]), Index(cur[1..], sizes[1..]));
  }

  lemma LastArithmetic(c0: nat, s0: nat, r: nat, x: nat)
    requires c0 + 1 == s0 && x + 1 == r
    ensures c0 * r + x + 1 == s0 * r
  {
  }

  lemma CarryArithmetic(c0: nat, s0: nat, r: nat, x: nat)
    requires x + 1 == r && c0 + 1 < s0
    ensures (c0 + 1) * r == c0 * r + x + 1
    ensures c0 * r + x + 1 < s0 * r
  {
    MulMono(c0 + 2, s0, r);
  }

  /** The right-most key that can move is the one that moves. */
  lemma {:induction false} StepIsRightmostBump(cur: seq<nat>, sizes: seq<nat>, locked: seq<bool>, i: nat)
    requires |cur| == |sizes| == |locked| && i < |cur|
    requires Carriable(cur, sizes, locked, i)
    requires forall j :: i < j < |cur| ==> !Carriable(cur, sizes, locked, j)
    ensures Step(cur, sizes, locked) == Some(Bump(cur, locked, i))
  {
    forall j | i - 1 < j < |cur| - 1
      ensures !Carriable(cur[1..], sizes[1..], locked[1..], j)
    {
      assert !Carriable(cur, sizes, locked, j + 1);
    }
    if i == 0 {
      StepIsStuck(cur[1..], sizes[1..], locked[1..]);
      BumpHead(cur, locked);
    } else {
      StepIsRightmostBump(cur[1..], sizes[1..], locked[1..], i - 1);
      BumpLater(cur, locked, i);
    }
  }

  lemma BumpHead(cur: seq<nat>, locked: seq<bool>)
    requires |cur| == |locked| && cur != []
    ensures Bump(cur, locked, 0) == [cur[0] + 1] + Reset(cur[1..], locked[1..])
  {
  }

  lemma BumpLater(cur: seq<nat>, locked: seq<bool>, i: nat)
    requires |cur| == |locked| && 0 < i < |cur|
    ensures [cur[0]] + Bump(cur[1..], locked[1..], i - 1) == Bump(cur, locked, i)
  {
    assert cur[1..][..i - 1] == cur[1..i];
    assert cur[..i] == [cur[0]] + cur[1..i];
    assert cur[1..][i - 1 + 1..] == cur[i + 1..];
    assert locked[1..][i - 1 + 1..] == locked[i + 1..];
  }

  /** When no key can move, the enumeration is over. */
  lemma {:induction false} StepIsStuck(cur: seq<nat>, sizes: seq<nat>, locked: seq<bool>)
    requires |cur| == |sizes| == |locked|
    requires forall j :: 0 <= j < |cur| ==> !Carriable(cur, sizes, locked, j)
    ensures Step(cur, sizes, locked).None?
  {
    if cur != [] {
      forall j | 0 <= j < |cur| - 1
        ensures !Carriable(cur[1..], sizes[1..], locked[1..], j)
      {
        assert !Carriable(cur, sizes, locked, j + 1);
      }
      StepIsStuck(cur[1..], sizes[1..], locked[1..]);
      assert !Carriable(cur, sizes, locked, 0);
    }
  }

  /** The converse: when the enumeration is over, no unlocked key can move. */
  lemma {:induction false} StuckMeansNoneCarriable(cur: seq<nat>, sizes: seq<nat>, locked: seq<bool>, j: nat)
    requires |cur| == |sizes| == |locked| && j < |cur|
    requires Step(cur, sizes, locked).None?
    ensures !Carriable(cur, sizes, locked, j)
  {
    if j > 0 {
      StuckMeansNoneCarriable(cur[1..], sizes[1..], locked[1..], j - 1);
    }
  }

  lemma {:induction false} PrependAt<V>(heads: seq<V>, tails: seq<seq<V>>, i: nat, j: nat)
    requires i < |heads| && j < |tails|
    ensures |Prepend(heads, tails)| == |heads| * |tails|
    ensures i * |tails| + j < |Prepend(heads, tails)|
    ensures Prepend(heads, tails)[i * |tails| + j] == [heads[i]] + tails[j]
  {
    var t := |tails|;
    if i == 0 {
      if |heads| > 1 {
        PrependAt(heads[1..], tails, 0, j);
      }
    } else {
      PrependAt(heads[1..], tails, i - 1, j);
      assert i * t + j == t + ((i - 1) * t + j);
    }
  }

  /**
   * The product holds the picked items of every in-bounds cursor vector, at
   * that vector's odometer position, and nothing else.
   */
  lemma {:induction false} ProductAt<V>(lists: seq<seq<V>>, cur: seq<nat>)
    requires InBounds(cur, Sizes(lists))
    ensures |Product(lists)| == Radix(Sizes(lists))
    ensures Index(cur, Sizes(lists)) < |Product(lists)|
    ensures Product(lists)[Index(cur, Sizes(lists))] == Pick(lists, cur)
  {
    var sizes := Sizes(lists);
    IndexBound(cur, sizes);
    if lists != [] {
      assert Sizes(lists[1..]) == sizes[1..];
      ProductAt(lists[1..], cur[1..]);
      var tails := Product(lists[1..]);
      PrependAt(lists[0], tails, cur[0], Index(cur[1..], sizes[1..]));
      assert Pick(lists, cur) == [lists[0][cur[0]]] + Pick(lists[1..], cur[1..]);
    }
  }

  /**
   * Without locks the enumeration is exactly the product in nested-loop order:
   * the k-th position picks `Product(lists)[k]`, and it ends after the last one.
   */
  lemma {:induction false} UnlockedTraceIsProduct<V>(lists: seq<seq<V>>, k: nat)
    requires forall i :: 0 <= i < |lists| ==> |lists[i]| > 0
    ensures k < |Product(lists)| ==>
      Trace(Sizes(lists), k).Some? &&
      InBounds(Trace(Sizes(lists), k).value, Sizes(lists)) &&
      Pick(lists, Trace(Sizes(lists), k).value) == Product(lists)[k]
    ensures k >= |Product(lists)| ==> Trace(Sizes(lists), k).None?
  {
    var sizes := Sizes(lists);
    ProductAt(lists, Zeros(|lists|));
    TraceIndex(sizes, k);
    if k < Radix(sizes) {
      var c := Trace(sizes, k).value;
      ProductAt(lists, c);
    }
  }

  lemma {:induction false} TraceIndex(sizes: seq<nat>, k: nat)
    requires forall i :: 0 <= i < |sizes| ==> sizes[i] > 0
    ensures k < Radix(sizes) ==>
      Trace(sizes, k).Some? && InBounds(Trace(sizes, k).value, sizes) &&
      Index(Trace(sizes, k).value, sizes) == k
    ensures k >= Radix(sizes) ==> Trace(sizes, k).None?
  {
    if k == 0 {
      RadixPositive(sizes);
      IndexOfZeros(Zeros(|sizes|), sizes);
    } else {
      TraceIndex(sizes, k - 1);
      if k - 1 < Radix(sizes) {
        var c := Trace(sizes, k - 1).value;
        StepIsSuccessor(c, sizes);
        StepKeepsLocked(c, sizes, NoLocks(|sizes|));
      }
    }
  }
}
