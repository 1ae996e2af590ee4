/**
 * The seek at the start of `my_write`, proved against the chain view: it
 * walks the file's chain to the cursor's block, appending fresh blocks
 * past the end of the chain, and fails only on a full disk.
 */
module Seeking {
  import opened Wrappers
  import Fat
  import opened FileIo

  /** `c` lists a whole chain of the loop-free table `fat`, ending in an
      end-of-chain entry. */
  ghost predicate Whole(fat: Fat.Table, c: seq<nat>)
  {
    Fat.Acyclic(fat) && Fat.Walk(fat, c) && fat[c[|c| - 1]].Terminal?
  }

  /**
   * The chain `c` of `fat` grown into the whole chain `c2` of the table
   * `fat'`: `c` is a prefix of `c2`, every block added was free in `fat`,
   * and no entry off `c2` changed.
   */
  ghost predicate Extends(fat: Fat.Table, c: seq<nat>, fat': Fat.Table, c2: seq<nat>)
  {
    Fat.Shaped(fat) ==>
      && Whole(fat', c2)
      && |c| <= |c2| && c2[..|c|] == c
      && (forall j :: |c| <= j < |c2| ==> fat[c2[j]].Free?)
      && (forall x :: 0 <= x < Fat.BLOCK_NUM && x !in c2 ==> fat'[x] == fat[x])
  }

  /** Where the seek `m` of `k` hops landed on the grown chain `c2`: on its
      `k`-th block, or nowhere because the disk is full. */
  ghost predicate Landed(m: Landing, k: nat, c2: seq<nat>)
  {
    && (m.blk.Some? ==> k < |c2| && m.blk.value == c2[k])
    && (m.blk.None? ==> Fat.Shaped(m.fat) && Fat.Full(m.fat))
  }

  /** A seek that linked nothing leaves the chain as it was. */
  lemma ExtendsStay(fat: Fat.Table, c: seq<nat>)
    requires Whole(fat, c)
    ensures Extends(fat, c, fat, c)
  {
    assert c[..|c|] == c;
  }

  /** A block of a grown chain is on the list it grew from or was free. */
  lemma ExtendsMember(fat: Fat.Table, d: seq<nat>, fat': Fat.Table, c3: seq<nat>, b: nat)
    requires Fat.Shaped(fat) && Extends(fat, d, fat', c3) && b in c3
    ensures b in d || fat[b].Free?
  {
    var j :| 0 <= j < |c3| && c3[j] == b;
    if j < |d| {
      assert d[j] == b;
    }
  }

  /** The seek followed the first block's link: the chain grown from the
      rest of the list, behind the first block. */
  lemma ExtendsNext(fat: Fat.Table, c: seq<nat>, fat': Fat.Table, c3: seq<nat>)
    requires Whole(fat, c) && |c| > 1
    requires Extends(fat, c[1..], fat', c3)
    ensures Extends(fat, c, fat', [c[0]] + c3)
  {
    var c2 := [c[0]] + c3;
    Fat.WalkDistinct(fat, c);
    if c[0] in c3 {
      ExtendsMember(fat, c[1..], fat', c3, c[0]);
      assert false;
    }
    assert fat'[c[0]] == Fat.Next(c3[0]);
    Fat.WalkCons(fat', c[0], c3);
    assert c2[..|c|] == [c[0]] + c3[..|c| - 1];
    forall j | |c| <= j < |c2|
      ensures fat[c2[j]].Free?
    {
      assert c2[j] == c3[j - 1];
    }
  }

  /** The seek appended the fresh block `nb` to the chain's only block: the
      chain grown from `nb`, behind the first block. */
  lemma ExtendsAppend(fat: Fat.Table, c: seq<nat>, nb: nat, fat1: Fat.Table, fat': Fat.Table, c3: seq<nat>)
    requires Whole(fat, c) && |c| == 1
    requires nb < Fat.BLOCK_NUM && nb != c[0] && fat[nb].Free?
    requires fat1 == fat[nb := Fat.Terminal][c[0] := Fat.Next(nb)]
    requires Extends(fat1, [nb], fat', c3)
    ensures Extends(fat, c, fat', [c[0]] + c3)
  {
    var c2 := [c[0]] + c3;
    if c[0] in c3 {
      ExtendsMember(fat1, [nb], fat', c3, c[0]);
      assert false;
    }
    assert c3[0] == nb;
    Fat.WalkCons(fat', c[0], c3);
    assert c2[..|c|] == c;
    forall j | |c| <= j < |c2|
      ensures fat[c2[j]].Free?
    {
      assert c2[j] == c3[j - 1];
    }
  }

  /** The appended block is a whole chain of its own in the table after it. */
  lemma AppendedWhole(fat: Fat.Table, blk: nat)
    requires Fat.Acyclic(fat) && blk < Fat.BLOCK_NUM && fat[blk].Terminal?
    requires Advance(fat, blk).blk.Some?
    ensures Whole(Advance(fat, blk).fat, [Advance(fat, blk).blk.value])
  {
    Fat.AppendAcyclic(fat, blk);
  }

  /** A seek that moves on from `cur` to `next` is the seek from `next`,
      one hop shorter. */
  lemma SeekOn(fat: Fat.Table, cur: nat, k: nat, fat1: Fat.Table, next: nat)
    requires Fat.Shaped(fat) && cur < Fat.BLOCK_NUM && k > 0
    requires Advance(fat, cur) == Landing(fat1, Some(next))
    ensures Fat.Shaped(fat1) && next < Fat.BLOCK_NUM
    ensures SeekForWrite(fat, cur, k) == SeekForWrite(fat1, next, k - 1)
  {
  }

  /** Landing on the `(k - 1)`-th block of the grown rest of the chain is
      landing on the `k`-th block of the whole. */
  lemma LandedCons(m: Landing, k: nat, b: nat, c3: seq<nat>)
    requires k > 0 && Landed(m, k - 1, c3)
    ensures Landed(m, k, [b] + c3)
  {
  }

  /** Where the seek goes on after the chain's first block: in `fat1`,
      along the whole chain `d`, which is the rest of `c` or the one block
      appended to it. */
  ghost predicate Onto(fat: Fat.Table, c: seq<nat>, fat1: Fat.Table, d: seq<nat>)
  {
    && Whole(fat, c) && Whole(fat1, d)
    && Advance(fat, c[0]) == Landing(fat1, Some(d[0]))
    && (|c| > 1 ==> fat1 == fat && d == c[1..])
    && (|c| == 1 ==> d == [d[0]] && d[0] != c[0] && fat[d[0]].Free?
                     && fat1 == fat[d[0] := Fat.Terminal][c[0] := Fat.Next(d[0])])
  }

  /** The seek stayed on the chain's first block: none left to go, or the
      disk is full. */
  lemma SeekStays(fat: Fat.Table, c: seq<nat>, k: nat)
    requires Whole(fat, c) && (k == 0 || Advance(fat, c[0]).blk.None?)
    ensures Extends(fat, c, SeekForWrite(fat, c[0], k).fat, c)
    ensures Landed(SeekForWrite(fat, c[0], k), k, c)
  {
    ExtendsStay(fat, c);
  }

  /** The seek moves on from the chain's first block. */
  lemma SeekMoves(fat: Fat.Table, c: seq<nat>) returns (fat1: Fat.Table, d: seq<nat>)
    requires Whole(fat, c) && Advance(fat, c[0]).blk.Some?
    ensures Onto(fat, c, fat1, d)
  {
    var m := Advance(fat, c[0]);
    if |c| > 1 {
      Fat.WalkSuffix(fat, c, 1);
      fat1, d := fat, c[1..];
    } else {
      AppendedWhole(fat, c[0]);
      fat1, d := m.fat, [m.blk.value];
    }
  }

  /** The seek of `k` hops from the chain's first block is the first block,
      then the seek of `k - 1` hops along `d`. */
  lemma SeekJoin(fat: Fat.Table, c: seq<nat>, k: nat, fat1: Fat.Table, d: seq<nat>, c3: seq<nat>)
    requires k > 0 && Onto(fat, c, fat1, d)
    requires Extends(fat1, d, SeekForWrite(fat1, d[0], k - 1).fat, c3)
    requires Landed(SeekForWrite(fat1, d[0], k - 1), k - 1, c3)
    ensures Extends(fat, c, SeekForWrite(fat, c[0], k).fat, [c[0]] + c3)
    ensures Landed(SeekForWrite(fat, c[0], k), k, [c[0]] + c3)
  {
    SeekOn(fat, c[0], k, fat1, d[0]);
    if |c| > 1 {
      ExtendsNext(fat, c, SeekForWrite(fat1, d[0], k - 1).fat, c3);
    } else {
      ExtendsAppend(fat, c, d[0], fat1, SeekForWrite(fat1, d[0], k - 1).fat, c3);
    }
    LandedCons(SeekForWrite(fat1, d[0], k - 1), k, c[0], c3);
  }

  /**
   * The seek of `my_write` from the head of the whole chain `c`: it grows
   * `c` by free blocks only into a whole chain `c2` of the loop-free table
   * it leaves, and lands on the `k`-th block of `c2`, or fails because the
   * disk is full.
   */
  lemma {:induction false} SeekChain(fat: Fat.Table, c: seq<nat>, k: nat) returns (c2: seq<nat>)
    requires Whole(fat, c)
    ensures Extends(fat, c, SeekForWrite(fat, c[0], k).fat, c2)
    ensures Landed(SeekForWrite(fat, c[0], k), k, c2)
    decreases k
  {
    if k == 0 || Advance(fat, c[0]).blk.None? {
      SeekStays(fat, c, k);
      return c;
    }
    var fat1, d := SeekMoves(fat, c);
    var c3 := SeekChain(fat1, d, k - 1);
    SeekJoin(fat, c, k, fat1, d, c3);
    c2 := [c[0]] + c3;
  }
}
