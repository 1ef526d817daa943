/** Option, Result, the byte type, and facts about numbers and sequences, shared by the other modules. */
module Wrappers {
  datatype Option<+T> = None | Some(value: T)

  datatype Result<+T, +E> = Ok(value: T) | Err(error: E)

  newtype byte = x: int | 0 <= x < 256

  /** A property of 0 that passes from each number below n to the next is one of n. */
  lemma {:induction false} Climb(p: nat -> bool, n: nat)
    requires p(0) && forall m: nat :: m < n && p(m) ==> p(m + 1)
    ensures p(n)
  {
    if n > 0 {
      Climb(p, n - 1);
      assert p(n - 1 + 1);
    }
  }

  /** Of the numbers below n that have a property there is a last one. */
  lemma {:induction false} LastBelow(p: nat -> bool, n: nat) returns (i: nat)
    requires exists m: nat :: m < n && p(m)
    ensures i < n && p(i) && forall m: nat :: i < m < n ==> !p(m)
  {
    if p(n - 1) {
      i := n - 1;
    } else {
      i := LastBelow(p, n - 1);
    }
  }

  /** The items of `after` are those of `before` at these places, and exactly the ones to keep. */
  ghost predicate IsSelection<T>(before: seq<T>, after: seq<T>, keep: T -> bool, places: seq<nat>) {
    && |places| == |after|
    && (forall j :: 0 <= j < |after| ==> places[j] < |before| && before[places[j]] == after[j] && keep(after[j]))
    && (forall i, j :: 0 <= i < j < |places| ==> places[i] < places[j])
    && (forall k :: 0 <= k < |before| && keep(before[k]) ==> k in places)
  }

  /** What remains of a sequence, in order, when exactly the items that fail a test are left out. */
  ghost predicate KeptInOrder<T>(before: seq<T>, after: seq<T>, keep: T -> bool) {
    exists places :: IsSelection(before, after, keep, places)
  }

  lemma KeptNone<T>(keep: T -> bool)
    ensures KeptInOrder([], [], keep)
  {
    assert IsSelection([], [], keep, []);
  }

  lemma SelectedToo<T>(before: seq<T>, after: seq<T>, keep: T -> bool, places: seq<nat>, last: T)
    requires IsSelection(before, after, keep, places) && keep(last)
    ensures IsSelection(before + [last], after + [last], keep, places + [|before|])
  {
    var longer, all := before + [last], places + [|before|];
    forall k: nat | k < |longer| && keep(longer[k]) ensures k in all {
      if k < |before| {
        assert longer[k] == before[k] && k in places;
      } else {
        assert all[|places|] == k;
      }
    }
  }

  lemma LeftOut<T>(before: seq<T>, after: seq<T>, keep: T -> bool, places: seq<nat>, last: T)
    requires IsSelection(before, after, keep, places) && !keep(last)
    ensures IsSelection(before + [last], after, keep, places)
  {
    var longer := before + [last];
    forall k: nat | k < |longer| && keep(longer[k]) ensures k in places {
      assert k < |before| && longer[k] == before[k];
    }
    assert forall j :: 0 <= j < |after| ==> longer[places[j]] == before[places[j]];
  }

  /** One more item at the end: it is kept, or left out. */
  lemma KeptOneMore<T>(before: seq<T>, after: seq<T>, keep: T -> bool, last: T)
    requires KeptInOrder(before, after, keep)
    ensures KeptInOrder(before + [last], if keep(last) then after + [last] else after, keep)
  {
    var places :| IsSelection(before, after, keep, places);
    if keep(last) {
      SelectedToo(before, after, keep, places, last);
    } else {
      LeftOut(before, after, keep, places, last);
    }
  }

  /** Only which items a test lets through matters. */
  lemma KeptAlike<T>(before: seq<T>, after: seq<T>, keep: T -> bool, alike: T -> bool)
    requires KeptInOrder(before, after, keep)
    requires forall k :: 0 <= k < |before| ==> (keep(before[k]) <==> alike(before[k]))
    ensures KeptInOrder(before, after, alike)
  {
    var places :| IsSelection(before, after, keep, places);
    assert IsSelection(before, after, alike, places);
  }
}
