/** The block loop shared by the blocked factorization drivers:
    `for (j = from; j < k; j += nb)` with block width `ib = min(nb, k - j)`.
    Each visited block is recorded as its first index and its width. */
module Blocking {
  import ColumnMajor

  function Min(a: nat, b: nat): nat
  {
    if a <= b then a else b
  }

  function Max(a: nat, b: nat): nat
  {
    if a <= b then b else a
  }

  datatype Block = Block(start: nat, width: nat)

  /** The index range [start, start + width) of a block holds r. */
  predicate Holds(b: Block, r: nat)
  {
    b.start <= r < b.start + b.width
  }

  /** The blocks the loop visits, in order, starting at index `from`. */
  function Blocks(k: nat, nb: nat, from: nat): seq<Block>
    requires nb >= 1
    decreases k - from
  {
    if from >= k then [] else [Block(from, Min(nb, k - from))] + Blocks(k, nb, from + nb)
  }

  /** Block t starts at from + t * nb, is between 1 and nb wide, is
      min(nb, k - start) wide and ends by k; the loop runs at all exactly when
      from < k, and then its first block starts at `from` and its last one
      ends at k. */
  lemma {:induction false} BlocksShape(k: nat, nb: nat, from: nat)
    requires nb >= 1
    ensures var bs := Blocks(k, nb, from);
      && (|bs| == 0 <==> from >= k)
      && (forall t | 0 <= t < |bs| ::
            && bs[t].start == from + t * nb
            && bs[t].start < k
            && bs[t].width == Min(nb, k - bs[t].start)
            && 1 <= bs[t].width <= nb
            && bs[t].start + bs[t].width <= k)
      && (|bs| > 0 ==> bs[0].start == from && bs[|bs| - 1].start + bs[|bs| - 1].width == k)
    decreases k - from
  {
    if from < k {
      var bs := Blocks(k, nb, from);
      var rest := Blocks(k, nb, from + nb);
      BlocksShape(k, nb, from + nb);
      assert bs == [Block(from, Min(nb, k - from))] + rest;
      forall t | 1 <= t < |bs|
        ensures bs[t].start == from + t * nb
      {
        assert bs[t] == rest[t - 1];
        assert (from + nb) + (t - 1) * nb == from + t * nb;
      }
      if |rest| == 0 {
        assert from + nb >= k;
      }
    }
  }

  /** Blocks come in increasing order and do not overlap. */
  lemma {:induction false} BlocksDisjoint(k: nat, nb: nat, from: nat)
    requires nb >= 1
    ensures var bs := Blocks(k, nb, from);
      forall t1, t2 | 0 <= t1 < t2 < |bs| :: bs[t1].start + bs[t1].width <= bs[t2].start
    decreases k - from
  {
    if from < k {
      var bs := Blocks(k, nb, from);
      var rest := Blocks(k, nb, from + nb);
      BlocksDisjoint(k, nb, from + nb);
      BlocksShape(k, nb, from + nb);
      assert bs == [Block(from, Min(nb, k - from))] + rest;
      forall t1, t2 | 0 <= t1 < t2 < |bs|
        ensures bs[t1].start + bs[t1].width <= bs[t2].start
      {
        assert bs[t2] == rest[t2 - 1];
        if t1 > 0 {
          assert bs[t1] == rest[t1 - 1];
        }
      }
    }
  }

  /** Some block of bs holds r. */
  predicate Covered(bs: seq<Block>, r: nat)
  {
    exists t | 0 <= t < |bs| :: Holds(bs[t], r)
  }

  /** Every index in [from, k) lies in some block. */
  lemma {:induction false} BlocksCover(k: nat, nb: nat, from: nat)
    requires nb >= 1
    ensures forall r | from <= r < k :: Covered(Blocks(k, nb, from), r)
    decreases k - from
  {
    if from < k {
      var bs := Blocks(k, nb, from);
      var rest := Blocks(k, nb, from + nb);
      BlocksCover(k, nb, from + nb);
      assert bs == [Block(from, Min(nb, k - from))] + rest;
      forall r | from <= r < k
        ensures Covered(bs, r)
      {
        if r < from + Min(nb, k - from) {
          assert Holds(bs[0], r);
        } else {
          assert from + nb <= r;
          assert Covered(rest, r);
          var t :| 0 <= t < |rest| && Holds(rest[t], r);
          assert bs[t + 1] == rest[t];
        }
      }
    }
  }

  /** The blocks starting at 0 partition [0, k): each index lies in exactly
      one of them. */
  lemma BlocksPartition(k: nat, nb: nat, r: nat)
    requires nb >= 1 && r < k
    ensures var bs := Blocks(k, nb, 0);
      && Covered(bs, r)
      && (forall t1, t2 | 0 <= t1 < |bs| && 0 <= t2 < |bs| && Holds(bs[t1], r) && Holds(bs[t2], r) :: t1 == t2)
  {
    BlocksCover(k, nb, 0);
    BlocksDisjoint(k, nb, 0);
  }

  /** A block that starts at a multiple of nb holds its q-th index at the
      position q of the block modulo nb. */
  lemma OffsetInBlock(t: nat, nb: nat, q: nat)
    requires q < nb
    ensures (t * nb + q) % nb == q
  {
    ColumnMajor.PositionOf(q, t, nb);
  }

  lemma NextMultiple(t: nat, nb: nat)
    ensures (t + 1) * nb == t * nb + nb
  {
  }

  /** One pass of the loop appends its block to those visited so far. */
  lemma BlocksAdvance(visited: seq<Block>, k: nat, nb: nat, from: nat)
    requires nb >= 1 && from < k && visited + Blocks(k, nb, from) == Blocks(k, nb, 0)
    ensures (visited + [Block(from, Min(nb, k - from))]) + Blocks(k, nb, from + nb) == Blocks(k, nb, 0)
  {
    assert Blocks(k, nb, from) == [Block(from, Min(nb, k - from))] + Blocks(k, nb, from + nb);
    assert (visited + [Block(from, Min(nb, k - from))]) + Blocks(k, nb, from + nb)
        == visited + Blocks(k, nb, from);
  }
}
