/**
 * What a file holds: the bytes of the blocks of its chain, in chain order.
 * The read and write loops are proved against this view.
 */
module Content {
  import opened Wrappers
  import Fat
  import opened FileSystem
  import opened FileIo

  /** The bytes of blocks `c[0]`, `c[1]`, ... laid end to end. */
  function Concat(blocks: seq<Block>, c: seq<nat>): (r: seq<byte>)
    requires forall j :: 0 <= j < |c| ==> c[j] < |blocks|
    ensures |r| == |c| * Fat.BLOCK_SIZE
  {
    if |c| == 0 then [] else Bytes(blocks[c[0]]) + Concat(blocks, c[1..])
  }

  /** Splitting a list of blocks splits its bytes. */
  lemma {:induction false} ConcatSplit(blocks: seq<Block>, c: seq<nat>, i: nat)
    requires forall j :: 0 <= j < |c| ==> c[j] < |blocks|
    requires i <= |c|
    ensures Concat(blocks, c) == Concat(blocks, c[..i]) + Concat(blocks, c[i..])
    decreases i
  {
    if i > 0 {
      ConcatSplit(blocks, c[1..], i - 1);
      assert c[1..][..i - 1] == c[..i][1..];
      assert c[1..][i - 1..] == c[i..];
    } else {
      assert c[i..] == c;
    }
  }

  /** The bytes of a list of blocks are its first block's, then the rest's. */
  lemma ConcatCons(blocks: seq<Block>, b: nat, d: seq<nat>)
    requires b < |blocks| && forall j :: 0 <= j < |d| ==> d[j] < |blocks|
    ensures Concat(blocks, [b] + d) == Bytes(blocks[b]) + Concat(blocks, d)
  {
    assert ([b] + d)[1..] == d;
  }

  /** A run within the first block of a list of blocks. */
  lemma ConcatHead(blocks: seq<Block>, c: seq<nat>, lo: nat, hi: nat)
    requires forall j :: 0 <= j < |c| ==> c[j] < |blocks|
    requires |c| >= 1 && lo <= hi <= Fat.BLOCK_SIZE
    ensures hi <= |Concat(blocks, c)|
    ensures Concat(blocks, c)[lo..hi] == Bytes(blocks[c[0]])[lo..hi]
  {
    var head := Bytes(blocks[c[0]]);
    assert Concat(blocks, c) == head + Concat(blocks, c[1..]);
  }

  /** Blocks that did not change give the same bytes. */
  lemma {:induction false} ConcatFrame(blocks: seq<Block>, blocks': seq<Block>, c: seq<nat>)
    requires forall j :: 0 <= j < |c| ==> c[j] < |blocks| && c[j] < |blocks'| && blocks'[c[j]] == blocks[c[j]]
    ensures Concat(blocks', c) == Concat(blocks, c)
    decreases |c|
  {
    if |c| > 0 {
      ConcatFrame(blocks, blocks', c[1..]);
    }
  }

  /** The bytes of two lists of blocks laid end to end. */
  lemma ConcatAppend(blocks: seq<Block>, a: seq<nat>, b: seq<nat>)
    requires forall j :: 0 <= j < |a| ==> a[j] < |blocks|
    requires forall j :: 0 <= j < |b| ==> b[j] < |blocks|
    ensures Concat(blocks, a + b) == Concat(blocks, a) + Concat(blocks, b)
  {
    ConcatSplit(blocks, a + b, |a|);
    assert (a + b)[..|a|] == a;
    assert (a + b)[|a|..] == b;
  }

  /** A list that extends `c` starts with the bytes of `c`. */
  lemma ConcatPrefix(blocks: seq<Block>, c: seq<nat>, c2: seq<nat>, p: nat)
    requires forall j :: 0 <= j < |c2| ==> c2[j] < |blocks|
    requires |c| <= |c2| && c2[..|c|] == c && p <= |c| * Fat.BLOCK_SIZE
    ensures Concat(blocks, c2)[..p] == Concat(blocks, c)[..p]
  {
    ConcatSplit(blocks, c2, |c|);
  }

  /** Blocks that read as the same bytes give the same bytes. */
  lemma {:induction false} ConcatSameBytes(blocks: seq<Block>, blocks': seq<Block>, c: seq<nat>)
    requires forall j :: 0 <= j < |c| ==> c[j] < |blocks| && c[j] < |blocks'| && Bytes(blocks'[c[j]]) == Bytes(blocks[c[j]])
    ensures Concat(blocks', c) == Concat(blocks, c)
    decreases |c|
  {
    if |c| > 0 {
      ConcatSameBytes(blocks, blocks', c[1..]);
    }
  }

  /** The read from offset `off` of the first block of a listed chain, clipped
      to the chain's end. */
  function Upto(all: seq<byte>, off: nat, want: int): (r: nat)
    requires off <= |all|
    ensures off <= r <= |all|
    ensures r - off <= (if want > 0 then want else 0)
  {
    Min(off + (if want > 0 then want else 0), |all|)
  }

  /** The read stays in the chain's first block: nothing is wanted, what
      is wanted fits in the block, or the block is the chain's last. */
  lemma ReadLoopInBlock(fat: Fat.Table, blocks: seq<Block>, c: seq<nat>, off: nat, want: int)
    requires |blocks| == Fat.BLOCK_NUM && Fat.Walk(fat, c) && off < Fat.BLOCK_SIZE
    requires want <= Fat.BLOCK_SIZE - off || |c| == 1
    ensures off <= |Concat(blocks, c)|
    ensures ReadLoop(fat, blocks, c[0], off, want) == Concat(blocks, c)[off..Upto(Concat(blocks, c), off, want)]
  {
    var all := Concat(blocks, c);
    var head := Bytes(blocks[c[0]]);
    assert all == head + Concat(blocks, c[1..]);
    var end := Upto(all, off, want);
    if want <= 0 {
      assert end == off;
    } else if want <= Fat.BLOCK_SIZE - off {
      assert all[off..end] == head[off..off + want];
    } else {
      assert !fat[c[0]].Next?;
      assert all[off..end] == head[off..];
    }
  }

  /** A run across the seam of two byte strings. */
  lemma SliceAcross(head: seq<byte>, tail: seq<byte>, off: nat, m: nat)
    requires off <= |head| && m <= |tail|
    ensures (head + tail)[off..|head| + m] == head[off..|head|] + tail[..m]
  {
  }

  /** One pass of the read loop that runs past the end of block `blk`:
      the rest of that block, then the loop from the next block's start. */
  lemma ReadLoopNext(fat: Fat.Table, blocks: seq<Block>, blk: nat, off: nat, want: int)
    requires Fat.Shaped(fat) && |blocks| == Fat.BLOCK_NUM && blk < Fat.BLOCK_NUM && off < Fat.BLOCK_SIZE
    requires want > Fat.BLOCK_SIZE - off && fat[blk].Next?
    ensures ReadLoop(fat, blocks, blk, off, want)
         == Bytes(blocks[blk])[off..Fat.BLOCK_SIZE] + ReadLoop(fat, blocks, fat[blk].next, 0, want - (Fat.BLOCK_SIZE - off))
  {
  }

  /** The read runs past the chain's first block: the rest of that block,
      then what the loop reads from the start of the chain's second block. */
  lemma ReadLoopOnward(fat: Fat.Table, blocks: seq<Block>, c: seq<nat>, off: nat, want: int)
    requires |blocks| == Fat.BLOCK_NUM && Fat.Walk(fat, c) && off < Fat.BLOCK_SIZE
    requires want > Fat.BLOCK_SIZE - off && |c| > 1
    requires ReadLoop(fat, blocks, c[1], 0, want - (Fat.BLOCK_SIZE - off))
          == Concat(blocks, c[1..])[..Upto(Concat(blocks, c[1..]), 0, want - (Fat.BLOCK_SIZE - off))]
    ensures off <= |Concat(blocks, c)|
    ensures ReadLoop(fat, blocks, c[0], off, want) == Concat(blocks, c)[off..Upto(Concat(blocks, c), off, want)]
  {
    var head := Bytes(blocks[c[0]]);
    var tail := Concat(blocks, c[1..]);
    var m := Upto(tail, 0, want - (Fat.BLOCK_SIZE - off));
    assert Concat(blocks, c) == head + tail;
    assert fat[c[0]] == Fat.Next(c[1]);
    ReadLoopNext(fat, blocks, c[0], off, want);
    SliceAcross(head, tail, off, m);
    assert Upto(Concat(blocks, c), off, want) == Fat.BLOCK_SIZE + m;
  }

  /**
   * `my_read`'s loop, started at offset `off` of the first block of a whole
   * chain, copies the chain's bytes from there on: `want` of them, or all up
   * to the end of the chain's last block when fewer remain.
   */
  lemma {:induction false} ReadLoopWalk(fat: Fat.Table, blocks: seq<Block>, c: seq<nat>, off: nat, want: int)
    requires |blocks| == Fat.BLOCK_NUM && Fat.Walk(fat, c) && off < Fat.BLOCK_SIZE
    ensures off <= |Concat(blocks, c)|
    ensures ReadLoop(fat, blocks, c[0], off, want) == Concat(blocks, c)[off..Upto(Concat(blocks, c), off, want)]
    decreases |c|
  {
    if want <= Fat.BLOCK_SIZE - off || |c| == 1 {
      ReadLoopInBlock(fat, blocks, c, off, want);
    } else {
      Fat.WalkSuffix(fat, c, 1);
      ReadLoopWalk(fat, blocks, c[1..], 0, want - (Fat.BLOCK_SIZE - off));
      ReadLoopOnward(fat, blocks, c, off, want);
    }
  }

  /** The bytes of the file whose chain starts at `head`. */
  function FileData(s: State, head: nat): (r: seq<byte>)
    requires Shaped(s) && Fat.Acyclic(s.fat) && head < Fat.BLOCK_NUM
    ensures |r| == |Fat.Chain(s.fat, head, Fat.BLOCK_NUM)| * Fat.BLOCK_SIZE
  {
    Concat(s.blocks, Fat.Chain(s.fat, head, Fat.BLOCK_NUM))
  }

  /** A read window of `data` that starts inside its part `rest` is the same
      window of `rest`. */
  lemma WindowIn(data: seq<byte>, pre: seq<byte>, rest: seq<byte>, off: nat, want: int)
    requires data == pre + rest && off <= |rest|
    ensures data[|pre| + off..Upto(data, |pre| + off, want)] == rest[off..Upto(rest, off, want)]
  {
    assert Upto(data, |pre| + off, want) == |pre| + Upto(rest, off, want);
  }

  /** Cursor arithmetic: the cursor's block index is below n exactly when
      the cursor is below n whole blocks. */
  lemma CursorBlock(pos: nat, n: nat)
    ensures pos == (pos / Fat.BLOCK_SIZE) * Fat.BLOCK_SIZE + pos % Fat.BLOCK_SIZE
    ensures pos / Fat.BLOCK_SIZE < n <==> pos < n * Fat.BLOCK_SIZE
  {
  }

  /** The same read, started at offset `off` of the `idx`-th block of a
      listed chain, which is the cursor `pos` of its bytes. */
  lemma ReadLoopAt(fat: Fat.Table, blocks: seq<Block>, c: seq<nat>, idx: nat, off: nat, pos: nat, want: int)
    requires |blocks| == Fat.BLOCK_NUM && Fat.Walk(fat, c) && idx < |c| && off < Fat.BLOCK_SIZE
    requires pos == idx * Fat.BLOCK_SIZE + off
    ensures pos < |Concat(blocks, c)|
    ensures ReadLoop(fat, blocks, c[idx], off, want) == Concat(blocks, c)[pos..Upto(Concat(blocks, c), pos, want)]
  {
    Fat.WalkSuffix(fat, c, idx);
    ReadLoopWalk(fat, blocks, c[idx..], off, want);
    assert c[idx..][0] == c[idx];
    ConcatSplit(blocks, c, idx);
    WindowAt(Concat(blocks, c), Concat(blocks, c[..idx]), Concat(blocks, c[idx..]), idx, off, pos, want);
  }

  lemma WindowAt(data: seq<byte>, pre: seq<byte>, rest: seq<byte>, idx: nat, off: nat, pos: nat, want: int)
    requires data == pre + rest && off < Fat.BLOCK_SIZE <= |rest|
    requires |pre| == idx * Fat.BLOCK_SIZE && pos == idx * Fat.BLOCK_SIZE + off
    ensures pos < |data|
    ensures data[pos..Upto(data, pos, want)] == rest[off..Upto(rest, off, want)]
  {
    WindowIn(data, pre, rest, off, want);
  }

  /** The same read, started at the cursor's block of a listed chain. */
  lemma ReadLoopCursor(fat: Fat.Table, blocks: seq<Block>, c: seq<nat>, pos: nat, want: int)
    requires |blocks| == Fat.BLOCK_NUM && Fat.Walk(fat, c) && pos < |Concat(blocks, c)|
    ensures pos / Fat.BLOCK_SIZE < |c|
    ensures ReadLoop(fat, blocks, c[pos / Fat.BLOCK_SIZE], pos % Fat.BLOCK_SIZE, want)
         == Concat(blocks, c)[pos..Upto(Concat(blocks, c), pos, want)]
  {
    CursorBlock(pos, |c|);
    ReadLoopAt(fat, blocks, c, pos / Fat.BLOCK_SIZE, pos % Fat.BLOCK_SIZE, pos, want);
  }

  /**
   * `my_read`'s loop started at the cursor's block reads the file's bytes
   * from the cursor on, clipped to the chain's end.
   */
  lemma ReadLoopFile(s: State, head: nat, pos: nat, want: int)
    requires Shaped(s) && Fat.Acyclic(s.fat) && head < Fat.BLOCK_NUM
    requires pos < |FileData(s, head)|
    ensures Fat.Hop(s.fat, head, pos / Fat.BLOCK_SIZE).Some?
    ensures ReadLoop(s.fat, s.blocks, Fat.Hop(s.fat, head, pos / Fat.BLOCK_SIZE).value, pos % Fat.BLOCK_SIZE, want)
         == FileData(s, head)[pos..Upto(FileData(s, head), pos, want)]
  {
    var c := Fat.Chain(s.fat, head, Fat.BLOCK_NUM);
    Fat.ChainWalk(s.fat, head);
    ReadLoopCursor(s.fat, s.blocks, c, pos, want);
    Fat.WalkHop(s.fat, c, pos / Fat.BLOCK_SIZE);
  }

  /** Walking to the cursor's block fails exactly when the cursor lies past
      the file's chain. */
  lemma HopToCursor(s: State, head: nat, pos: nat)
    requires Shaped(s) && Fat.Acyclic(s.fat) && head < Fat.BLOCK_NUM
    ensures Fat.Hop(s.fat, head, pos / Fat.BLOCK_SIZE).None? <==> pos >= |FileData(s, head)|
  {
    var c := Fat.Chain(s.fat, head, Fat.BLOCK_NUM);
    Fat.ChainWalk(s.fat, head);
    Fat.WalkHop(s.fat, c, pos / Fat.BLOCK_SIZE);
    CursorBlock(pos, |c|);
  }

  /**
   * `my_read` on a readable descriptor whose cursor is below the recorded
   * size fails exactly when the cursor lies past the file's chain, and
   * otherwise returns the file's bytes from the cursor on: as many as the
   * length `my_read` settles on, which is at most up to the recorded size,
   * and at most up to the chain's end.
   */
  lemma ReadFile(s: State, fd: nat, length: int)
    requires Shaped(s) && Fat.Acyclic(s.fat) && fd < MAX_OPEN_FILES
    requires s.fds[fd].used && s.fds[fd].canRead && s.fds[fd].pos < s.fds[fd].size
    ensures var f := s.fds[fd];
      Read(s, fd, length).status == -1 <==> f.pos >= |FileData(s, f.head)|
    ensures var f := s.fds[fd];
      f.pos < |FileData(s, f.head)| ==>
        Read(s, fd, length).bytes
        == FileData(s, f.head)[f.pos..Upto(FileData(s, f.head), f.pos, ReadLength(f.pos, f.size, length))]
  {
    var f := s.fds[fd];
    HopToCursor(s, f.head, f.pos);
    if f.pos < |FileData(s, f.head)| {
      ReadLoopFile(s, f.head, f.pos, ReadLength(f.pos, f.size, length));
    }
  }

  /**
   * A negative length that takes the cursor below 0, such as the -1 the
   * command loop's `atoi` gives for "read 0 -1", reads everything from
   * the cursor to the recorded size that the chain holds.
   */
  lemma ReadNegative(s: State, fd: nat, length: int)
    requires Shaped(s) && Fat.Acyclic(s.fat) && fd < MAX_OPEN_FILES
    requires s.fds[fd].used && s.fds[fd].canRead && s.fds[fd].pos < s.fds[fd].size
    requires s.fds[fd].pos + length < 0
    requires s.fds[fd].pos < |FileData(s, s.fds[fd].head)|
    ensures var f := s.fds[fd]; var all := FileData(s, f.head);
      && Read(s, fd, length).bytes == all[f.pos..Min(f.size, |all|)]
      && Read(s, fd, length).status == Min(f.size, |all|) - f.pos
      && Read(s, fd, length).status > 0
  {
    ReadFile(s, fd, length);
  }

  /** A negative length that leaves the sum at 0 or above reads nothing. */
  lemma ReadNegativeSmall(s: State, fd: nat, length: int)
    requires Shaped(s) && Fat.Acyclic(s.fat) && fd < MAX_OPEN_FILES
    requires s.fds[fd].used && s.fds[fd].canRead && s.fds[fd].pos < s.fds[fd].size
    requires length <= 0 && s.fds[fd].pos + length >= 0
    requires s.fds[fd].pos < |FileData(s, s.fds[fd].head)|
    ensures Read(s, fd, length).status == 0 && Read(s, fd, length).bytes == []
  {
    ReadFile(s, fd, length);
  }
}
