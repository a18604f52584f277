/**
  Which blocks a sequence of polls queries, when each poll goes from a cursor to the reported
  head but no further back than a range cap.
 */
module Scans {
  import opened Wrappers

  ghost predicate NonDecreasing(heads: seq<nat>) {
    forall i, j | 0 <= i <= j < |heads| :: heads[i] <= heads[j]
  }

  /** The first block that no poll before `i` reached. */
  function FrontierAt(start: nat, heads: seq<nat>, i: nat): nat
    requires i < |heads|
  {
    if i == 0 then start else Max(start, heads[i - 1] + 1)
  }

  /** From the frontier or from before it, but no further back than the cap. */
  ghost predicate ScansOne(frontier: nat, head: nat, cap: nat, from: nat) {
    head - cap <= from && (frontier <= head ==> from <= Max(frontier, head - cap))
  }

  /** Poll `i` queries the blocks `froms[i]` to `heads[i]`. */
  ghost predicate ScansFrom(start: nat, heads: seq<nat>, cap: nat, froms: seq<nat>) {
    && heads != [] && NonDecreasing(heads) && |froms| == |heads|
    && forall i: nat | i < |heads| :: ScansOne(FrontierAt(start, heads, i), heads[i], cap, froms[i])
  }

  ghost predicate Queried(froms: seq<nat>, heads: seq<nat>, i: nat, b: nat) {
    i < |froms| && i < |heads| && froms[i] <= b <= heads[i]
  }

  ghost predicate Covered(froms: seq<nat>, heads: seq<nat>, b: nat) {
    exists i :: Queried(froms, heads, i, b)
  }

  /** Poll `i` leaves `b` out between the frontier and its range. */
  ghost predicate SkippedAt(start: nat, heads: seq<nat>, cap: nat, i: nat, b: nat) {
    i < |heads| && FrontierAt(start, heads, i) <= b < heads[i] - cap
  }

  /** No poll found the head further ahead of the frontier than the cap. */
  ghost predicate KeepsUp(start: nat, heads: seq<nat>, cap: nat) {
    forall i: nat | i < |heads| :: heads[i] <= FrontierAt(start, heads, i) + cap
  }

  /** The first poll whose head reaches `b`. */
  lemma {:induction false} FirstToReach(heads: seq<nat>, b: nat) returns (i: nat)
    requires heads != [] && b <= heads[|heads| - 1]
    ensures i < |heads| && b <= heads[i] && (i > 0 ==> heads[i - 1] < b)
  {
    i := 0;
    while heads[i] < b
      invariant i < |heads| && (i > 0 ==> heads[i - 1] < b)
      decreases |heads| - i
    {
      i := i + 1;
    }
  }

  lemma {:induction false} SkippedNeverQueried(start: nat, heads: seq<nat>, cap: nat, froms: seq<nat>, i: nat,
      b: nat, k: nat)
    requires ScansFrom(start, heads, cap, froms) && SkippedAt(start, heads, cap, i, b)
    ensures !Queried(froms, heads, k, b)
  {
    if k < |heads| {
      assert ScansOne(FrontierAt(start, heads, k), heads[k], cap, froms[k]);
      if k < i {
        assert heads[k] <= heads[i - 1];
      } else {
        assert heads[i] <= heads[k];
      }
    }
  }

  /** A block from the start on is never queried, by no earlier or later poll, exactly when some poll skipped it. */
  lemma {:induction false} MissedExactly(start: nat, heads: seq<nat>, cap: nat, froms: seq<nat>, b: nat)
    requires ScansFrom(start, heads, cap, froms) && start <= b <= heads[|heads| - 1]
    ensures !Covered(froms, heads, b) <==> exists i :: SkippedAt(start, heads, cap, i, b)
  {
    var i := FirstToReach(heads, b);
    assert ScansOne(FrontierAt(start, heads, i), heads[i], cap, froms[i]);
    if froms[i] <= b {
      assert Queried(froms, heads, i, b);
    } else {
      assert SkippedAt(start, heads, cap, i, b);
    }
    if k :| SkippedAt(start, heads, cap, k, b) {
      forall j ensures !Queried(froms, heads, j, b) {
        SkippedNeverQueried(start, heads, cap, froms, k, b, j);
      }
    }
  }

  ghost predicate AllCovered(start: nat, froms: seq<nat>, heads: seq<nat>)
    requires heads != []
  {
    forall b: nat | start <= b <= heads[|heads| - 1] :: Covered(froms, heads, b)
  }

  /** Every block from the start to the last head is queried exactly when every poll kept up. */
  lemma {:induction false} AllCoveredExactly(start: nat, heads: seq<nat>, cap: nat, froms: seq<nat>)
    requires ScansFrom(start, heads, cap, froms)
    ensures AllCovered(start, froms, heads) <==> KeepsUp(start, heads, cap)
  {
    if KeepsUp(start, heads, cap) {
      forall b: nat | start <= b <= heads[|heads| - 1] ensures Covered(froms, heads, b) {
        MissedExactly(start, heads, cap, froms, b);
      }
    } else {
      var i: nat :| i < |heads| && heads[i] > FrontierAt(start, heads, i) + cap;
      var b := FrontierAt(start, heads, i);
      assert SkippedAt(start, heads, cap, i, b);
      assert start <= b <= heads[|heads| - 1] by {
        assert heads[i] <= heads[|heads| - 1];
      }
      MissedExactly(start, heads, cap, froms, b);
    }
  }

  ghost predicate OnlyOnce(froms: seq<nat>, heads: seq<nat>, b: nat) {
    forall i, k :: Queried(froms, heads, i, b) && Queried(froms, heads, k, b) ==> i == k
  }

  /** Polls that never go back behind the frontier query no block twice. */
  lemma {:induction false} QueriedOnlyOnce(start: nat, heads: seq<nat>, cap: nat, froms: seq<nat>, b: nat)
    requires ScansFrom(start, heads, cap, froms)
    requires forall i: nat | i < |heads| :: FrontierAt(start, heads, i) <= froms[i]
    ensures OnlyOnce(froms, heads, b)
  {
    forall i: nat, k: nat | i < k < |heads| ensures heads[i] < froms[k] {
      assert heads[i] <= heads[k - 1] < FrontierAt(start, heads, k) <= froms[k];
    }
  }
}
