/**
 * `my_write`'s copy loop proved against the chain view of a file: the
 * bytes land at the cursor, the chain only grows by blocks that were
 * free, and nothing off the chain changes.
 */
module Growth {
  import opened Wrappers
  import Fat
  import opened FileSystem
  import opened FileIo
  import opened Content

  /**
   * The chains after a write loop started on the listed chain `c` of `s`
   * and ending in `t`: `c` has grown into the listed chain `c2` of `t` by
   * blocks that were free, `t`'s table is still loop-free and ends the chain,
   * and no block off `c2` changed its entry or its contents.
   */
  ghost predicate Grown(s: State, c: seq<nat>, t: State, c2: seq<nat>)
  {
    Shaped(s) && Shaped(t) ==>
      && Fat.Walk(t.fat, c2) && Fat.Acyclic(t.fat) && t.fat[c2[|c2| - 1]].Terminal?
      && |c| <= |c2| && c2[..|c|] == c
      && (forall j :: |c| <= j < |c2| ==> s.fat[c2[j]].Free?)
      && (forall x :: 0 <= x < Fat.BLOCK_NUM && x !in c2 ==> t.fat[x] == s.fat[x] && t.blocks[x] == s.blocks[x])
  }

  /**
   * The bytes after that write loop, which ran on the listed chain `c` of
   * `s` from offset `off` and ended in `r` on the listed chain `c2`:
   * `data[written..r.written]` sits at offset `off` of `c2`, the bytes
   * before `off` are kept, and the loop stopped short only on a full disk.
   */
  ghost predicate Placed(s: State, c: seq<nat>, off: nat, data: seq<byte>, written: nat, r: Progress, c2: seq<nat>)
  {
    && Shaped(s) && Shaped(r.fs) && Fat.Walk(s.fat, c) && Fat.Walk(r.fs.fat, c2)
    && off < Fat.BLOCK_SIZE && written <= r.written <= |data|
    ==>
    && off + (r.written - written) <= |Concat(r.fs.blocks, c2)|
    && Concat(r.fs.blocks, c2)[off..off + (r.written - written)] == data[written..r.written]
    && Concat(r.fs.blocks, c2)[..off] == Concat(s.blocks, c)[..off]
    && (r.written < |data| ==> Fat.Full(r.fs.fat))
  }

  /** `r` is the run of `my_write`'s copy loop from block `blk`. */
  ghost predicate RunOf(s: State, blk: nat, off: nat, data: seq<byte>, written: nat, r: Progress)
  {
    Shaped(s) && blk < Fat.BLOCK_NUM && off < Fat.BLOCK_SIZE && written <= |data|
    && r == WriteLoop(s, blk, off, data, written)
  }
  /** Where a pass that filled the chain's first block goes on: along the
      rest of the chain, or alone in the block it appended. */
  ghost function Onward(s: State, c: seq<nat>): (d: seq<nat>)
    requires Shaped(s) && Fat.Walk(s.fat, c) && Advance(s.fat, c[0]).blk.Some?
    ensures |d| >= 1 && d[0] == Advance(s.fat, c[0]).blk.value
  {
    if |c| > 1 then c[1..] else [Advance(s.fat, c[0]).blk.value]
  }

  /** One pass of the loop on the chain `c`: it filled the first block from
      `off` and went on in `s2` along `d`, with `w2` bytes written. */
  ghost predicate Passed(s: State, c: seq<nat>, off: nat, data: seq<byte>, written: nat, s2: State, d: seq<nat>, w2: nat)
  {
    && Shaped(s) && Fat.Walk(s.fat, c) && off < Fat.BLOCK_SIZE && written <= |data|
    && Advance(s.fat, c[0]).blk.Some?
    && s2 == Moved(s, c[0], off, data, written) && d == Onward(s, c) && w2 == written + Chunk(off, data, written)
  }
}

module Writes {
  import opened Wrappers
  import Fat
  import opened FileSystem
  import opened FileIo
  import opened Content
  import opened Growth

  // One pass of the loop, case by case.

  /** The facts about a pass's copy. */
  lemma FilledFacts(s: State, blk: nat, off: nat, data: seq<byte>, written: nat)
    requires Shaped(s) && blk < Fat.BLOCK_NUM && off < Fat.BLOCK_SIZE && written <= |data|
    ensures var t := Filled(s, blk, off, data, written); var k := Chunk(off, data, written);
      && t.fat == s.fat && t.fds == s.fds && t.cwd == s.cwd
      && (forall x :: 0 <= x < Fat.BLOCK_NUM && x != blk ==> t.blocks[x] == s.blocks[x])
      && Bytes(t.blocks[blk])[off..off + k] == data[written..written + k]
      && Bytes(t.blocks[blk])[..off] == Bytes(s.blocks[blk])[..off]
  {
    FillBytes(s, blk, off, data[written..written + Chunk(off, data, written)]);
  }

  /** The facts about the state a pass moves on in. */
  lemma MovedFacts(s: State, blk: nat, off: nat, data: seq<byte>, written: nat)
    requires Shaped(s) && blk < Fat.BLOCK_NUM && off < Fat.BLOCK_SIZE && written <= |data|
    ensures var t := Moved(s, blk, off, data, written);
      && t.fat == Advance(s.fat, blk).fat
      && t.blocks == Filled(s, blk, off, data, written).blocks
  {
    FilledFacts(s, blk, off, data, written);
  }

  /** The bytes of the block a pass filled, in the state it moves on in. */
  lemma MovedBytes(s: State, blk: nat, off: nat, data: seq<byte>, written: nat)
    requires Shaped(s) && blk < Fat.BLOCK_NUM && off < Fat.BLOCK_SIZE && written <= |data|
    ensures var b := Moved(s, blk, off, data, written).blocks[blk]; var k := Chunk(off, data, written);
      && b == Filled(s, blk, off, data, written).blocks[blk]
      && Bytes(b)[off..off + k] == data[written..written + k]
      && Bytes(b)[..off] == Bytes(s.blocks[blk])[..off]
  {
    FilledFacts(s, blk, off, data, written);
  }

  lemma WriteLoopFits(s: State, blk: nat, off: nat, data: seq<byte>, written: nat)
    requires Shaped(s) && blk < Fat.BLOCK_NUM && off < Fat.BLOCK_SIZE && written < |data|
    requires |data| - written <= Fat.BLOCK_SIZE - off
    ensures written + Chunk(off, data, written) == |data|
    ensures WriteLoop(s, blk, off, data, written)
         == Progress(Filled(s, blk, off, data, written), written + Chunk(off, data, written))
  {
  }

  lemma WriteLoopStops(s: State, blk: nat, off: nat, data: seq<byte>, written: nat)
    requires Shaped(s) && blk < Fat.BLOCK_NUM && off < Fat.BLOCK_SIZE && written < |data|
    requires |data| - written > Fat.BLOCK_SIZE - off && Advance(s.fat, blk).blk.None?
    ensures written + Chunk(off, data, written) < |data|
    ensures WriteLoop(s, blk, off, data, written)
         == Progress(Filled(s, blk, off, data, written), written + Chunk(off, data, written))
  {
    FilledFacts(s, blk, off, data, written);
  }

  lemma WriteLoopGoes(s: State, blk: nat, off: nat, data: seq<byte>, written: nat)
    requires Shaped(s) && blk < Fat.BLOCK_NUM && off < Fat.BLOCK_SIZE && written < |data|
    requires |data| - written > Fat.BLOCK_SIZE - off && Advance(s.fat, blk).blk.Some?
    ensures Chunk(off, data, written) == Fat.BLOCK_SIZE - off
    ensures WriteLoop(s, blk, off, data, written)
         == WriteLoop(Moved(s, blk, off, data, written), Advance(s.fat, blk).blk.value, 0, data, written + Chunk(off, data, written))
  {
    FilledFacts(s, blk, off, data, written);
  }

  /** A loop that stayed in the chain's first block and linked nothing left
      the chain as it was. */
  lemma GrownStay(s: State, c: seq<nat>, t: State)
    requires Shaped(s) && Shaped(t) && Fat.Acyclic(s.fat) && Fat.Walk(s.fat, c) && s.fat[c[|c| - 1]].Terminal?
    requires t.fat == s.fat && forall x :: 0 <= x < Fat.BLOCK_NUM && x != c[0] ==> t.blocks[x] == s.blocks[x]
    ensures Grown(s, c, t, c)
  {
    assert c[..|c|] == c;
  }

  /** ... and its bytes went into that first block. */
  lemma PlacedFirst(s: State, c: seq<nat>, off: nat, data: seq<byte>, written: nat, r: Progress)
    requires Shaped(s) && Shaped(r.fs) && Fat.Walk(s.fat, c) && r.fs.fat == s.fat
    requires off < Fat.BLOCK_SIZE && written <= r.written <= |data| && off + (r.written - written) <= Fat.BLOCK_SIZE
    requires Bytes(r.fs.blocks[c[0]])[off..off + (r.written - written)] == data[written..r.written]
    requires Bytes(r.fs.blocks[c[0]])[..off] == Bytes(s.blocks[c[0]])[..off]
    requires r.written < |data| ==> Fat.Full(s.fat)
    ensures Placed(s, c, off, data, written, r, c)
  {
    var k := r.written - written;
    ConcatHead(r.fs.blocks, c, off, off + k);
    ConcatHead(r.fs.blocks, c, 0, off);
    ConcatHead(s.blocks, c, 0, off);
  }

  /** A block of a grown chain is on the list it grew from or was free. */
  lemma GrownMember(s: State, d: seq<nat>, t: State, c3: seq<nat>, b: nat)
    requires Shaped(s) && Shaped(t) && Grown(s, d, t, c3) && b in c3
    ensures b in d || s.fat[b].Free?
  {
    var j :| 0 <= j < |c3| && c3[j] == b;
    if j < |d| {
      assert d[j] == b;
    }
  }

  /** The first block of a loop-free listed chain is not on the chain
      grown from the rest of the list. */
  lemma FirstNotGrown(s: State, s2: State, c: seq<nat>, t: State, c3: seq<nat>)
    requires Shaped(s) && Fat.Acyclic(s.fat) && Fat.Walk(s.fat, c) && |c| > 1
    requires Shaped(s2) && s2.fat == s.fat
    requires Shaped(t) && Grown(s2, c[1..], t, c3)
    ensures c[0] !in c3
  {
    Fat.WalkDistinct(s.fat, c);
    if c[0] in c3 {
      GrownMember(s2, c[1..], t, c3, c[0]);
      assert false;
    }
  }

  /** The loop filled the chain's first block and went on along its link:
      the chain grown from the rest of the list, behind the first block. */
  lemma GrownNext(s: State, s2: State, c: seq<nat>, t: State, c3: seq<nat>)
    requires Shaped(s) && Fat.Acyclic(s.fat) && Fat.Walk(s.fat, c) && |c| > 1
    requires Shaped(s2) && s2.fat == s.fat
    requires forall x :: 0 <= x < Fat.BLOCK_NUM && x != c[0] ==> s2.blocks[x] == s.blocks[x]
    requires Shaped(t) && Grown(s2, c[1..], t, c3)
    ensures Grown(s, c, t, [c[0]] + c3)
  {
    var c2 := [c[0]] + c3;
    FirstNotGrown(s, s2, c, t, c3);
    assert t.fat[c[0]] == Fat.Next(c3[0]);
    Fat.WalkCons(t.fat, c[0], c3);
    assert c2[..|c|] == [c[0]] + c3[..|c| - 1];
    assert c2[..|c|] == c;
    forall j | |c| <= j < |c2|
      ensures s.fat[c2[j]].Free?
    {
      assert c2[j] == c3[j - 1];
    }
  }

  /** The loop filled the chain's only block and went on into a block it
      appended: the chain grown from that block, behind the first one. */
  lemma GrownAppend(s: State, s2: State, c: seq<nat>, nb: nat, t: State, c3: seq<nat>)
    requires Shaped(s) && Fat.Acyclic(s.fat) && Fat.Walk(s.fat, c) && |c| == 1
    requires nb < Fat.BLOCK_NUM && nb != c[0] && s.fat[nb].Free?
    requires Shaped(s2) && s2.fat == s.fat[nb := Fat.Terminal][c[0] := Fat.Next(nb)]
    requires forall x :: 0 <= x < Fat.BLOCK_NUM && x != c[0] ==> s2.blocks[x] == s.blocks[x]
    requires Shaped(t) && Grown(s2, [nb], t, c3)
    ensures Grown(s, c, t, [c[0]] + c3)
  {
    var c2 := [c[0]] + c3;
    if c[0] in c3 {
      GrownMember(s2, [nb], t, c3, c[0]);
      assert false;
    }
    assert c3[0] == nb;
    Fat.WalkCons(t.fat, c[0], c3);
    assert c2[..|c|] == c;
    forall j | |c| <= j < |c2|
      ensures s.fat[c2[j]].Free?
    {
      assert c2[j] == c3[j - 1];
    }
  }

  /** Runs of a concatenation that start in its first part. */
  lemma JoinRuns(all: seq<byte>, head: seq<byte>, tail: seq<byte>, off: nat, k: nat)
    requires all == head + tail && off <= |head| && k <= |tail|
    ensures all[off..|head| + k] == head[off..|head|] + tail[..k]
    ensures all[..off] == head[..off]
  {
  }

  /** A run of the data split at `m`. */
  lemma SplitRun(data: seq<byte>, lo: nat, m: nat, hi: nat)
    requires lo <= m <= hi <= |data|
    ensures data[lo..hi] == data[lo..m] + data[m..hi]
  {
  }

  /** The bytes when the loop filled the chain's first block from `off` to
      its end and went on in the chain grown from the list `d`: that block's
      share of the data, then the rest of the data. */
  lemma PlacedCons(s: State, s2: State, c: seq<nat>, d: seq<nat>, off: nat, k: nat, data: seq<byte>,
                   written: nat, r: Progress, c3: seq<nat>)
    requires Shaped(s) && Fat.Walk(s.fat, c) && Shaped(s2) && off < Fat.BLOCK_SIZE
    requires k == Fat.BLOCK_SIZE - off && written + k <= |data|
    requires Bytes(s2.blocks[c[0]])[off..off + k] == data[written..written + k]
    requires Bytes(s2.blocks[c[0]])[..off] == Bytes(s.blocks[c[0]])[..off]
    requires Shaped(r.fs) && Fat.Walk(s2.fat, d) && Fat.Walk(r.fs.fat, c3) && written + k <= r.written <= |data|
    requires Placed(s2, d, 0, data, written + k, r, c3)
    requires Fat.Walk(r.fs.fat, [c[0]] + c3) && r.fs.blocks[c[0]] == s2.blocks[c[0]]
    ensures Placed(s, c, off, data, written, r, [c[0]] + c3)
  {
    var w := written + k;
    ConcatCons(r.fs.blocks, c[0], c3);
    JoinRuns(Concat(r.fs.blocks, [c[0]] + c3), Bytes(s2.blocks[c[0]]), Concat(r.fs.blocks, c3), off, r.written - w);
    SplitRun(data, written, w, r.written);
    ConcatHead(s.blocks, c, 0, off);
  }

  /** Nothing left to write: the loop changes nothing. */
  lemma WriteDone(s: State, c: seq<nat>, off: nat, data: seq<byte>, written: nat)
    requires Shaped(s) && Fat.Acyclic(s.fat) && Fat.Walk(s.fat, c) && s.fat[c[|c| - 1]].Terminal?
    requires off < Fat.BLOCK_SIZE && written == |data|
    ensures Grown(s, c, WriteLoop(s, c[0], off, data, written).fs, c)
    ensures Placed(s, c, off, data, written, WriteLoop(s, c[0], off, data, written), c)
  {
    GrownStay(s, c, s);
    PlacedFirst(s, c, off, data, written, WriteLoop(s, c[0], off, data, written));
  }

  /** The loop filled what it was given within the chain's first block. */
  lemma WriteFitsGrown(s: State, c: seq<nat>, off: nat, data: seq<byte>, written: nat)
    requires Shaped(s) && Fat.Acyclic(s.fat) && Fat.Walk(s.fat, c) && s.fat[c[|c| - 1]].Terminal?
    requires off < Fat.BLOCK_SIZE && written < |data| && |data| - written <= Fat.BLOCK_SIZE - off
    ensures Grown(s, c, WriteLoop(s, c[0], off, data, written).fs, c)
  {
    WriteLoopFits(s, c[0], off, data, written);
    FilledFacts(s, c[0], off, data, written);
    GrownStay(s, c, Filled(s, c[0], off, data, written));
  }

  lemma WriteFitsPlaced(s: State, c: seq<nat>, off: nat, data: seq<byte>, written: nat)
    requires Shaped(s) && Fat.Walk(s.fat, c)
    requires off < Fat.BLOCK_SIZE && written < |data| && |data| - written <= Fat.BLOCK_SIZE - off
    ensures Placed(s, c, off, data, written, WriteLoop(s, c[0], off, data, written), c)
  {
    WriteLoopFits(s, c[0], off, data, written);
    FilledFacts(s, c[0], off, data, written);
    PlacedFirst(s, c, off, data, written, WriteLoop(s, c[0], off, data, written));
  }

  /** The loop filled the chain's first block and could not move on: the
      disk is full. */
  lemma WriteStopsGrown(s: State, c: seq<nat>, off: nat, data: seq<byte>, written: nat)
    requires Shaped(s) && Fat.Acyclic(s.fat) && Fat.Walk(s.fat, c) && s.fat[c[|c| - 1]].Terminal?
    requires off < Fat.BLOCK_SIZE && written < |data| && |data| - written > Fat.BLOCK_SIZE - off
    requires Advance(s.fat, c[0]).blk.None?
    ensures Grown(s, c, WriteLoop(s, c[0], off, data, written).fs, c)
  {
    WriteLoopStops(s, c[0], off, data, written);
    FilledFacts(s, c[0], off, data, written);
    GrownStay(s, c, Filled(s, c[0], off, data, written));
  }

  lemma WriteStopsPlaced(s: State, c: seq<nat>, off: nat, data: seq<byte>, written: nat)
    requires Shaped(s) && Fat.Walk(s.fat, c) && s.fat[c[|c| - 1]].Terminal?
    requires off < Fat.BLOCK_SIZE && written < |data| && |data| - written > Fat.BLOCK_SIZE - off
    requires Advance(s.fat, c[0]).blk.None?
    ensures Placed(s, c, off, data, written, WriteLoop(s, c[0], off, data, written), c)
  {
    WriteLoopStops(s, c[0], off, data, written);
    FilledFacts(s, c[0], off, data, written);
    PlacedFirst(s, c, off, data, written, WriteLoop(s, c[0], off, data, written));
  }

  /** Moving on from the end of a loop-free chain keeps the table loop-free. */
  lemma AdvanceAcyclic(fat: Fat.Table, blk: nat)
    requires Fat.Acyclic(fat) && blk < Fat.BLOCK_NUM && fat[blk].Terminal?
    ensures Fat.Acyclic(Advance(fat, blk).fat)
  {
    Fat.AppendAcyclic(fat, blk);
  }

  /** The loop filled the chain's first block and followed its link: the
      chain grown from the rest `d` of the list, into `t`. */
  lemma MoveNextGrown(s: State, c: seq<nat>, off: nat, data: seq<byte>, written: nat, d: seq<nat>, c3: seq<nat>, t: State)
    requires Shaped(s) && Fat.Acyclic(s.fat) && Fat.Walk(s.fat, c) && |c| > 1 && d == c[1..]
    requires off < Fat.BLOCK_SIZE && written <= |data|
    requires Shaped(t) && Grown(Moved(s, c[0], off, data, written), d, t, c3)
    ensures c[0] !in c3
    ensures t.blocks[c[0]] == Filled(s, c[0], off, data, written).blocks[c[0]]
    ensures Grown(s, c, t, [c[0]] + c3)
  {
    assert s.fat[c[0]] == Fat.Next(c[1]);
    MovedFacts(s, c[0], off, data, written);
    FilledFacts(s, c[0], off, data, written);
    var s2 := Moved(s, c[0], off, data, written);
    FirstNotGrown(s, s2, c, t, c3);
    GrownNext(s, s2, c, t, c3);
  }

  /** The loop filled the chain's only block and appended a fresh one,
      listed alone in `d`: the chain grown from that one, into `t`. */
  lemma MoveAppendGrown(s: State, c: seq<nat>, off: nat, data: seq<byte>, written: nat, d: seq<nat>, c3: seq<nat>, t: State)
    requires Shaped(s) && Fat.Acyclic(s.fat) && Fat.Walk(s.fat, c) && |c| == 1 && s.fat[c[0]].Terminal?
    requires off < Fat.BLOCK_SIZE && written <= |data|
    requires Advance(s.fat, c[0]).blk.Some? && d == [Advance(s.fat, c[0]).blk.value]
    requires Shaped(t) && Grown(Moved(s, c[0], off, data, written), d, t, c3)
    ensures c[0] !in c3
    ensures t.blocks[c[0]] == Filled(s, c[0], off, data, written).blocks[c[0]]
    ensures Grown(s, c, t, [c[0]] + c3)
  {
    MovedFacts(s, c[0], off, data, written);
    FilledFacts(s, c[0], off, data, written);
    var s2 := Moved(s, c[0], off, data, written);
    if c[0] in c3 {
      GrownMember(s2, d, t, c3, c[0]);
      assert false;
    }
    GrownAppend(s, s2, c, d[0], t, c3);
  }

  /** The bytes of a loop that filled the chain's first block from `off`
      and went on along the list `d`, ending in `r`. */
  lemma MovePlaced(s: State, c: seq<nat>, off: nat, data: seq<byte>, written: nat, s2: State, d: seq<nat>, w2: nat, c3: seq<nat>, r: Progress)
    requires Shaped(s) && Fat.Walk(s.fat, c)
    requires off < Fat.BLOCK_SIZE && written < |data| && |data| - written > Fat.BLOCK_SIZE - off
    requires s2 == Moved(s, c[0], off, data, written) && w2 == written + Chunk(off, data, written)
    requires Shaped(r.fs) && Fat.Walk(s2.fat, d) && Fat.Walk(r.fs.fat, c3) && w2 <= r.written <= |data|
    requires Placed(s2, d, 0, data, w2, r, c3)
    requires Fat.Walk(r.fs.fat, [c[0]] + c3)
    requires r.fs.blocks[c[0]] == Filled(s, c[0], off, data, written).blocks[c[0]]
    ensures Placed(s, c, off, data, written, r, [c[0]] + c3)
  {
    MovedBytes(s, c[0], off, data, written);
    PlacedCons(s, s2, c, d, off, Chunk(off, data, written), data, written, r, c3);
  }

  /** `c` lists a whole chain of `s`, in a loop-free table. */
  ghost predicate Listed(s: State, c: seq<nat>)
  {
    Shaped(s) && Fat.Acyclic(s.fat) && Fat.Walk(s.fat, c) && s.fat[c[|c| - 1]].Terminal?
  }

  /** `r` is the run of the loop on the listed chain `c`, from offset `off`
      of its first block. */
  ghost predicate Looping(s: State, c: seq<nat>, off: nat, data: seq<byte>, written: nat, r: Progress)
  {
    Listed(s, c) && off < Fat.BLOCK_SIZE && written <= |data| && RunOf(s, c[0], off, data, written, r)
  }

  /** What that run did: `c` grew into `c2` and the bytes are in place. */
  ghost predicate Wrote(s: State, c: seq<nat>, off: nat, data: seq<byte>, written: nat, r: Progress, c2: seq<nat>)
  {
    Grown(s, c, r.fs, c2) && Placed(s, c, off, data, written, r, c2)
  }

  /** The rest of the chain after its first block is filled, or the block
      appended to it, is a whole chain of the table the loop moves on with. */
  lemma OnwardListed(s: State, c: seq<nat>, off: nat, data: seq<byte>, written: nat)
    requires Listed(s, c) && off < Fat.BLOCK_SIZE && written <= |data|
    requires Advance(s.fat, c[0]).blk.Some?
    ensures Listed(Moved(s, c[0], off, data, written), Onward(s, c))
  {
    MovedFacts(s, c[0], off, data, written);
    if |c| > 1 {
      Fat.WalkSuffix(s.fat, c, 1);
    } else {
      AdvanceAcyclic(s.fat, c[0]);
    }
  }

  /** A run that filled block `blk` and went on is the run from the next block. */
  lemma OnwardRun(s: State, blk: nat, off: nat, data: seq<byte>, written: nat, s2: State, nb: nat, w2: nat, r: Progress)
    requires RunOf(s, blk, off, data, written, r)
    requires written < |data| && |data| - written > Fat.BLOCK_SIZE - off
    requires Advance(s.fat, blk).blk == Some(nb)
    requires s2 == Moved(s, blk, off, data, written) && w2 == written + Chunk(off, data, written)
    ensures RunOf(s2, nb, 0, data, w2, r)
  {
    WriteLoopGoes(s, blk, off, data, written);
  }

  /** A run that filled the chain's first block and went on is the run on
      `Onward(s, c)`, a whole chain of the table it moves on with. */
  lemma Onwards(s: State, c: seq<nat>, off: nat, data: seq<byte>, written: nat, r: Progress)
      returns (s2: State, d: seq<nat>, w2: nat)
    requires Looping(s, c, off, data, written, r)
    requires written < |data| && |data| - written > Fat.BLOCK_SIZE - off
    requires Advance(s.fat, c[0]).blk.Some?
    ensures Passed(s, c, off, data, written, s2, d, w2) && written < w2
    ensures Listed(s2, d)
    ensures w2 <= |data|
    ensures RunOf(s2, d[0], 0, data, w2, r)
  {
    s2, d, w2 := Moved(s, c[0], off, data, written), Onward(s, c), written + Chunk(off, data, written);
    OnwardListed(s, c, off, data, written);
    OnwardRun(s, c[0], off, data, written, s2, d[0], w2, r);
  }

  /** The loop filled the chain's first block and went on along `d`, which
      it grew into `c3`: the chain `c` grew into `[c[0]] + c3`, with the
      bytes in place. */
  lemma MoveOn(s: State, c: seq<nat>, off: nat, data: seq<byte>, written: nat, s2: State, d: seq<nat>, w2: nat, c3: seq<nat>, r: Progress)
    requires Listed(s, c) && written < |data| && |data| - written > Fat.BLOCK_SIZE - off
    requires Passed(s, c, off, data, written, s2, d, w2)
    requires Looping(s2, d, 0, data, w2, r) && Wrote(s2, d, 0, data, w2, r, c3)
    ensures Wrote(s, c, off, data, written, r, [c[0]] + c3)
  {
    if |c| > 1 {
      assert s.fat[c[0]] == Fat.Next(c[1]);
      MoveNextGrown(s, c, off, data, written, d, c3, r.fs);
    } else {
      MoveAppendGrown(s, c, off, data, written, d, c3, r.fs);
    }
    MovePlaced(s, c, off, data, written, s2, d, w2, c3, r);
  }

  /** A run that never left the chain's first block. */
  lemma Stay(s: State, c: seq<nat>, off: nat, data: seq<byte>, written: nat, r: Progress)
    requires Looping(s, c, off, data, written, r)
    requires written == |data| || |data| - written <= Fat.BLOCK_SIZE - off || Advance(s.fat, c[0]).blk.None?
    ensures Wrote(s, c, off, data, written, r, c)
  {
    if written == |data| {
      WriteDone(s, c, off, data, written);
    } else if |data| - written <= Fat.BLOCK_SIZE - off {
      WriteFitsGrown(s, c, off, data, written);
      WriteFitsPlaced(s, c, off, data, written);
    } else {
      WriteStopsGrown(s, c, off, data, written);
      WriteStopsPlaced(s, c, off, data, written);
    }
  }

  /**
   * The run `r` of the write loop on the listed chain `c`: the chain grows
   * into some `c2` by free blocks only, the data lands at offset `off` of
   * it, and the loop stops short only on a full disk.
   */
  lemma {:induction false} WriteLoopChain(s: State, c: seq<nat>, off: nat, data: seq<byte>, written: nat, r: Progress)
      returns (c2: seq<nat>)
    requires Looping(s, c, off, data, written, r)
    ensures Wrote(s, c, off, data, written, r, c2)
    decreases |data| - written
  {
    if written == |data| || |data| - written <= Fat.BLOCK_SIZE - off || Advance(s.fat, c[0]).blk.None? {
      Stay(s, c, off, data, written, r);
      return c;
    }
    var s2, d, w2 := Onwards(s, c, off, data, written, r);
    var c3 := WriteLoopChain(s2, d, 0, data, w2, r);
    MoveOn(s, c, off, data, written, s2, d, w2, c3, r);
    c2 := [c[0]] + c3;
  }
}
