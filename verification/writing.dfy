/**
 * `my_write` as a whole: the seek, the copy loop and the size bookkeeping,
 * proved against the file's bytes and the allocation table.
 */
module Writing {
  import opened Wrappers
  import Fat
  import opened Directory
  import opened FileSystem
  import opened FileIo
  import opened Content
  import opened Growth
  import opened Writes
  import opened Seeking

  // The table stays loop-free, whatever chain the descriptor points into.

  /** One move of `my_write`'s walk keeps the table loop-free. */
  lemma AdvanceKeepsAcyclic(fat: Fat.Table, blk: nat)
    requires Fat.Acyclic(fat) && blk < Fat.BLOCK_NUM
    ensures Fat.Acyclic(Advance(fat, blk).fat)
  {
    if fat[blk].Terminal? {
      Fat.AppendAcyclic(fat, blk);
    }
  }

  lemma {:induction false} SeekKeepsAcyclic(fat: Fat.Table, cur: nat, k: nat)
    requires Fat.Acyclic(fat) && cur < Fat.BLOCK_NUM
    ensures Fat.Acyclic(SeekForWrite(fat, cur, k).fat)
    decreases k
  {
    if k > 0 {
      var m := Advance(fat, cur);
      AdvanceKeepsAcyclic(fat, cur);
      if m.blk.Some? {
        SeekKeepsAcyclic(m.fat, m.blk.value, k - 1);
      }
    }
  }

  /** A pass of the copy loop that moves on hands the next pass a
      loop-free table, and more of the data written. */
  lemma MovedAcyclic(s: State, blk: nat, off: nat, data: seq<byte>, written: nat) returns (s2: State, nb: nat, w2: nat)
    requires Shaped(s) && Fat.Acyclic(s.fat) && blk < Fat.BLOCK_NUM && off < Fat.BLOCK_SIZE && written < |data|
    requires |data| - written > Fat.BLOCK_SIZE - off && Advance(s.fat, blk).blk.Some?
    ensures Shaped(s2) && Fat.Acyclic(s2.fat) && nb < Fat.BLOCK_NUM && written < w2 <= |data|
    ensures WriteLoop(s, blk, off, data, written) == WriteLoop(s2, nb, 0, data, w2)
  {
    MovedFacts(s, blk, off, data, written);
    AdvanceKeepsAcyclic(s.fat, blk);
    WriteLoopGoes(s, blk, off, data, written);
    s2, nb, w2 := Moved(s, blk, off, data, written), Advance(s.fat, blk).blk.value, written + Chunk(off, data, written);
  }

  /** A last pass of the copy loop only fills a block. */
  lemma LastAcyclic(s: State, blk: nat, off: nat, data: seq<byte>, written: nat)
    requires Shaped(s) && Fat.Acyclic(s.fat) && blk < Fat.BLOCK_NUM && off < Fat.BLOCK_SIZE && written <= |data|
    requires !(written < |data| && |data| - written > Fat.BLOCK_SIZE - off && Advance(s.fat, blk).blk.Some?)
    ensures Fat.Acyclic(WriteLoop(s, blk, off, data, written).fs.fat)
  {
    FilledFacts(s, blk, off, data, written);
    if written < |data| && |data| - written > Fat.BLOCK_SIZE - off {
      WriteLoopStops(s, blk, off, data, written);
    } else if written < |data| {
      WriteLoopFits(s, blk, off, data, written);
    }
  }

  lemma {:induction false} WriteLoopKeepsAcyclic(s: State, blk: nat, off: nat, data: seq<byte>, written: nat)
    requires Shaped(s) && Fat.Acyclic(s.fat) && blk < Fat.BLOCK_NUM && off < Fat.BLOCK_SIZE && written <= |data|
    ensures Fat.Acyclic(WriteLoop(s, blk, off, data, written).fs.fat)
    decreases |data| - written
  {
    if written < |data| && |data| - written > Fat.BLOCK_SIZE - off && Advance(s.fat, blk).blk.Some? {
      var s2, nb, w2 := MovedAcyclic(s, blk, off, data, written);
      WriteLoopKeepsAcyclic(s2, nb, 0, data, w2);
    } else {
      LastAcyclic(s, blk, off, data, written);
    }
  }

  /** `my_write` keeps the allocation table loop-free. */
  lemma WriteKeepsAcyclic(s: State, fd: int, data: seq<byte>)
    requires Shaped(s) && Fat.Acyclic(s.fat)
    ensures Fat.Acyclic(Write(s, fd, data).fs.fat)
  {
    if 0 <= fd < MAX_OPEN_FILES && s.fds[fd].used && s.fds[fd].canWrite {
      var f := s.fds[fd];
      var m := SeekForWrite(s.fat, f.head, f.pos / Fat.BLOCK_SIZE);
      SeekKeepsAcyclic(s.fat, f.head, f.pos / Fat.BLOCK_SIZE);
      if m.blk.Some? {
        WriteLoopKeepsAcyclic(s.(fat := m.fat), m.blk.value, f.pos % Fat.BLOCK_SIZE, data, 0);
      }
    }
  }

  // The bytes land at the cursor of a file whose chain is whole.

  /** The file whose chain starts at `head` is whole: its chain, in a
      loop-free table, ends in an end-of-chain entry rather than in a free
      one. */
  ghost predicate Sound(s: State, head: nat)
  {
    Shaped(s) && head < Fat.BLOCK_NUM && Whole(s.fat, Fat.Chain(s.fat, head, Fat.BLOCK_NUM))
  }

  /** A whole chain is the chain followed from its head. */
  lemma WholeChain(fat: Fat.Table, c: seq<nat>)
    requires Whole(fat, c)
    ensures Fat.Chain(fat, c[0], Fat.BLOCK_NUM) == c
  {
    Fat.ChainWalk(fat, c[0]);
    Fat.WalkUnique(fat, Fat.Chain(fat, c[0], Fat.BLOCK_NUM), c);
  }

  /** The copy step of `my_write` on descriptor `fd`: the seek to the
      cursor's block, then the copy loop from the cursor's offset. */
  ghost function Copied(s: State, fd: nat, data: seq<byte>): (r: Progress)
    requires Shaped(s) && fd < MAX_OPEN_FILES
    ensures Shaped(r.fs) && r.written <= |data|
  {
    var f := s.fds[fd];
    var m := SeekForWrite(s.fat, f.head, f.pos / Fat.BLOCK_SIZE);
    if m.blk.None? then Progress(s.(fat := m.fat), 0)
    else WriteLoop(s.(fat := m.fat), m.blk.value, f.pos % Fat.BLOCK_SIZE, data, 0)
  }

  /** `my_write` on a writable descriptor reports the copy step's count and
      leaves its table and its bytes; past the copy step it changes only
      the size in the first entry of the file's name in the current
      directory, when the cursor passed the recorded size. */
  lemma WriteIsCopied(s: State, fd: nat, data: seq<byte>)
    requires Shaped(s) && fd < MAX_OPEN_FILES && s.fds[fd].used && s.fds[fd].canWrite
    ensures var r := Write(s, fd, data); var p := Copied(s, fd, data);
      && r.status == p.written && r.fs.fat == p.fs.fat
      && forall x :: 0 <= x < Fat.BLOCK_NUM ==> Bytes(r.fs.blocks[x]) == Bytes(p.fs.blocks[x])
    ensures var r := Write(s, fd, data); var p := Copied(s, fd, data);
      && p.fs.cwd == s.cwd && CwdBlock(p.fs) == CwdBlock(s)
      && forall x :: 0 <= x < Fat.BLOCK_NUM && x != CwdBlock(s) ==> r.fs.blocks[x] == p.fs.blocks[x]
    ensures var r := Write(s, fd, data); var p := Copied(s, fd, data); var f := s.fds[fd];
      var q := f.pos + r.status; var i := Find(CwdSlots(p.fs), f.name);
      && (q > f.size && i >= 0 ==> CwdSlots(r.fs) == CwdSlots(p.fs)[i := CwdSlots(p.fs)[i].(size := q)])
      && (q <= f.size || i == -1 ==> CwdSlots(r.fs) == CwdSlots(p.fs))
  {
  }

  /** Windows of a byte string made of a prefix `pre` and the rest `rest`,
      at a cursor inside `rest`. */
  lemma Window(all: seq<byte>, pre: seq<byte>, rest: seq<byte>, off: nat, w: nat)
    requires all == pre + rest && off + w <= |rest|
    ensures all[|pre| + off..|pre| + off + w] == rest[off..off + w]
    ensures all[..|pre| + off] == pre + rest[..off]
  {
  }

  /** A block before the cursor's block on the sought chain is not on the
      chain the copy loop grew from the cursor's block. */
  lemma BeforeNotGrown(fat1: Fat.Table, c2: seq<nat>, k: nat, s1: State, t: State, c3: seq<nat>, j: nat)
    requires Whole(fat1, c2) && k < |c2| && j < k
    requires Shaped(s1) && s1.fat == fat1 && Shaped(t) && Grown(s1, c2[k..], t, c3)
    ensures c2[j] !in c3
  {
    Fat.WalkDistinct(fat1, c2);
    if c2[j] in c3 {
      var i :| 0 <= i < |c3| && c3[i] == c2[j];
      assert false;
    }
  }

  /** The blocks before the cursor's block kept their entries and bytes. */
  lemma BeforeKept(fat1: Fat.Table, c2: seq<nat>, k: nat, s1: State, t: State, c3: seq<nat>)
    requires Whole(fat1, c2) && k < |c2|
    requires Shaped(s1) && s1.fat == fat1 && Shaped(t) && Grown(s1, c2[k..], t, c3)
    ensures forall j :: 0 <= j < k ==> t.fat[c2[j]] == fat1[c2[j]] && t.blocks[c2[j]] == s1.blocks[c2[j]]
  {
    forall j | 0 <= j < k
      ensures t.fat[c2[j]] == fat1[c2[j]] && t.blocks[c2[j]] == s1.blocks[c2[j]]
    {
      BeforeNotGrown(fat1, c2, k, s1, t, c3, j);
    }
  }

  /** Those blocks, then the grown chain, are a whole chain. */
  lemma JoinLinks(fat1: Fat.Table, c2: seq<nat>, k: nat, fat2: Fat.Table, c3: seq<nat>)
    requires Whole(fat1, c2) && k < |c2| && Whole(fat2, c3) && c3[0] == c2[k]
    requires forall j :: 0 <= j < k ==> fat2[c2[j]] == fat1[c2[j]]
    ensures Whole(fat2, c2[..k] + c3)
  {
    var cF := c2[..k] + c3;
    forall j | 0 <= j < |cF| - 1
      ensures fat2[cF[j]] == Fat.Next(cF[j + 1])
    {
      if j < k {
        assert cF[j] == c2[j];
        assert fat1[c2[j]] == Fat.Next(c2[j + 1]);
        if j + 1 < k {
          assert cF[j + 1] == c2[j + 1];
        } else {
          assert cF[j + 1] == c3[0];
        }
      } else {
        assert cF[j] == c3[j - k] && cF[j + 1] == c3[j - k + 1];
      }
    }
    assert cF[|cF| - 1] == c3[|c3| - 1];
  }

  /** The bytes of the chain `cF` of the blocks `b2` hold the first `w`
      bytes of `data` from `pos` on, and before `pos` the bytes of the
      chain `c` of the blocks `b1`. */
  ghost predicate CopiedAt(b1: seq<Block>, c: seq<nat>, pos: nat, data: seq<byte>, w: nat, b2: seq<Block>, cF: seq<nat>)
  {
    && (forall j :: 0 <= j < |c| ==> c[j] < |b1|)
    && (forall j :: 0 <= j < |cF| ==> cF[j] < |b2|)
    && w <= |data| && pos <= |Concat(b1, c)| && pos + w <= |Concat(b2, cF)|
    && Concat(b2, cF)[pos..pos + w] == data[..w]
    && Concat(b2, cF)[..pos] == Concat(b1, c)[..pos]
  }

  /** The bytes of the sought chain up to the cursor's block, the same in
      the blocks before and after the copy loop, then the rest. */
  lemma JoinConcat(b1: seq<Block>, c2: seq<nat>, k: nat, b2: seq<Block>, c3: seq<nat>) returns (pre: seq<byte>)
    requires |b1| == Fat.BLOCK_NUM && |b2| == Fat.BLOCK_NUM && k < |c2|
    requires forall j :: 0 <= j < |c2| ==> c2[j] < Fat.BLOCK_NUM
    requires forall j :: 0 <= j < |c3| ==> c3[j] < Fat.BLOCK_NUM
    requires forall j :: 0 <= j < k ==> b2[c2[j]] == b1[c2[j]]
    ensures |pre| == k * Fat.BLOCK_SIZE
    ensures Concat(b2, c2[..k] + c3) == pre + Concat(b2, c3)
    ensures Concat(b1, c2) == pre + Concat(b1, c2[k..])
  {
    pre := Concat(b1, c2[..k]);
    ConcatAppend(b2, c2[..k], c3);
    ConcatFrame(b1, b2, c2[..k]);
    ConcatSplit(b1, c2, k);
  }

  /** Behind a common prefix, a run of bytes that holds the data at `off`
      and agrees with another run before `off`. */
  lemma Spliced(all: seq<byte>, whole: seq<byte>, pre: seq<byte>, rest: seq<byte>, rest1: seq<byte>, off: nat, data: seq<byte>, w: nat)
    requires all == pre + rest && whole == pre + rest1 && off + w <= |rest| && off <= |rest1| && w <= |data|
    requires rest[off..off + w] == data[..w] && rest[..off] == rest1[..off]
    ensures |pre| + off <= |whole| && |pre| + off + w <= |all|
    ensures all[|pre| + off..|pre| + off + w] == data[..w]
    ensures all[..|pre| + off] == whole[..|pre| + off]
  {
    Window(all, pre, rest, off, w);
    Window(whole, pre, rest1, off, 0);
  }

  /** The bytes of those blocks, then the grown chain: the data at the
      cursor, and before it the bytes of the sought chain. */
  lemma JoinedBelow(c2: seq<nat>, k: nat, c3: seq<nat>)
    requires k <= |c2|
    requires forall j :: 0 <= j < |c2| ==> c2[j] < Fat.BLOCK_NUM
    requires forall j :: 0 <= j < |c3| ==> c3[j] < Fat.BLOCK_NUM
    ensures forall j :: 0 <= j < |c2[..k] + c3| ==> (c2[..k] + c3)[j] < Fat.BLOCK_NUM
  {
    forall j | 0 <= j < |c2[..k] + c3|
      ensures (c2[..k] + c3)[j] < Fat.BLOCK_NUM
    {
      if j >= k {
        assert (c2[..k] + c3)[j] == c3[j - k];
      }
    }
  }

  lemma JoinBytes(b1: seq<Block>, c2: seq<nat>, k: nat, off: nat, pos: nat, data: seq<byte>, w: nat, b2: seq<Block>, c3: seq<nat>)
    requires pos == k * Fat.BLOCK_SIZE + off
    requires |b1| == Fat.BLOCK_NUM && |b2| == Fat.BLOCK_NUM && k < |c2| && off < Fat.BLOCK_SIZE && w <= |data|
    requires forall j :: 0 <= j < |c2| ==> c2[j] < Fat.BLOCK_NUM
    requires forall j :: 0 <= j < |c3| ==> c3[j] < Fat.BLOCK_NUM
    requires forall j :: 0 <= j < k ==> b2[c2[j]] == b1[c2[j]]
    requires off + w <= |Concat(b2, c3)| && Concat(b2, c3)[off..off + w] == data[..w]
    requires Concat(b2, c3)[..off] == Concat(b1, c2[k..])[..off]
    ensures CopiedAt(b1, c2, pos, data, w, b2, c2[..k] + c3)
  {
    var pre := JoinConcat(b1, c2, k, b2, c3);
    assert pos == |pre| + off;
    Spliced(Concat(b2, c2[..k] + c3), Concat(b1, c2), pre, Concat(b2, c3), Concat(b1, c2[k..]), off, data, w);
    JoinedBelow(c2, k, c3);
  }

  /** The copy loop run from the `k`-th block of the whole chain `c2`:
      the rest of `c2` from there grew into `c3`. */
  lemma CopiedRun(s1: State, c2: seq<nat>, k: nat, off: nat, data: seq<byte>, blk: nat, prog: Progress) returns (c3: seq<nat>)
    requires Shaped(s1) && Whole(s1.fat, c2) && k < |c2| && off < Fat.BLOCK_SIZE
    requires blk == c2[k] && prog == WriteLoop(s1, blk, off, data, 0)
    ensures Listed(s1, c2[k..]) && Shaped(prog.fs) && prog.written <= |data|
    ensures Wrote(s1, c2[k..], off, data, 0, prog, c3) && c3[0] == c2[k]
  {
    var d := c2[k..];
    Fat.WalkSuffix(s1.fat, c2, k);
    assert Listed(s1, d);
    c3 := WriteLoopChain(s1, d, off, data, 0, prog);
    assert c3[0] == c3[..|d|][0];
  }

  /** What the copy loop did to the listed chain `d`, spelled out. */
  lemma WroteFacts(s1: State, d: seq<nat>, off: nat, data: seq<byte>, prog: Progress, c3: seq<nat>)
    requires Listed(s1, d) && Shaped(prog.fs) && off < Fat.BLOCK_SIZE && prog.written <= |data|
    requires Wrote(s1, d, off, data, 0, prog, c3)
    ensures Whole(prog.fs.fat, c3)
    ensures forall j :: 0 <= j < |c3| ==> c3[j] < Fat.BLOCK_NUM
    ensures prog.written < |data| ==> Fat.Full(prog.fs.fat)
    ensures off + prog.written <= |Concat(prog.fs.blocks, c3)|
    ensures Concat(prog.fs.blocks, c3)[off..off + prog.written] == data[..prog.written]
    ensures Concat(prog.fs.blocks, c3)[..off] == Concat(s1.blocks, d)[..off]
  {
    assert data[0..prog.written] == data[..prog.written];
  }

  /** The chain `c2` of `s1` up to its `k`-th block, then the chain `c3`
      the copy loop grew from that block. */
  lemma Joined(s1: State, c2: seq<nat>, k: nat, off: nat, data: seq<byte>, prog: Progress, c3: seq<nat>)
    requires Shaped(s1) && Whole(s1.fat, c2) && k < |c2| && off < Fat.BLOCK_SIZE
    requires Shaped(prog.fs) && Grown(s1, c2[k..], prog.fs, c3) && prog.written <= |data|
    requires Whole(prog.fs.fat, c3) && c3[0] == c2[k]
    requires forall j :: 0 <= j < |c3| ==> c3[j] < Fat.BLOCK_NUM
    requires off + prog.written <= |Concat(prog.fs.blocks, c3)|
    requires Concat(prog.fs.blocks, c3)[off..off + prog.written] == data[..prog.written]
    requires Concat(prog.fs.blocks, c3)[..off] == Concat(s1.blocks, c2[k..])[..off]
    ensures Whole(prog.fs.fat, c2[..k] + c3)
    ensures CopiedAt(s1.blocks, c2, k * Fat.BLOCK_SIZE + off, data, prog.written, prog.fs.blocks, c2[..k] + c3)
  {
    BeforeKept(s1.fat, c2, k, s1, prog.fs, c3);
    JoinLinks(s1.fat, c2, k, prog.fs.fat, c3);
    JoinBytes(s1.blocks, c2, k, off, k * Fat.BLOCK_SIZE + off, data, prog.written, prog.fs.blocks, c3);
  }

  /** No block of a whole chain is free. */
  lemma FreeOffWhole(fat: Fat.Table, c: seq<nat>, x: nat)
    requires Whole(fat, c) && x < Fat.BLOCK_NUM && fat[x].Free?
    ensures x !in c
  {
    forall i | 0 <= i < |c|
      ensures c[i] != x
    {
      if i < |c| - 1 {
        assert fat[c[i]] == Fat.Next(c[i + 1]);
      }
    }
  }

  /** The chain `c2` up to its `k`-th block, then the chain `c3` grown from
      the rest of it, is `c2` grown. */
  lemma GrownWhole(s1: State, c2: seq<nat>, k: nat, t: State, c3: seq<nat>)
    requires Shaped(s1) && Shaped(t) && Whole(s1.fat, c2) && k < |c2|
    requires Grown(s1, c2[k..], t, c3) && Whole(t.fat, c2[..k] + c3)
    ensures Grown(s1, c2, t, c2[..k] + c3)
  {
    var cF := c2[..k] + c3;
    var d := c2[k..];
    assert c3[..|d|] == d;
    forall j | 0 <= j < |c2|
      ensures cF[j] == c2[j]
    {
      if j >= k {
        assert cF[j] == c3[j - k] == c3[..|d|][j - k];
      }
    }
    assert cF[..|c2|] == c2;
    forall j | |c2| <= j < |cF|
      ensures s1.fat[cF[j]].Free?
    {
      assert cF[j] == c3[j - k];
    }
    forall x | 0 <= x < Fat.BLOCK_NUM && x !in cF
      ensures t.fat[x] == s1.fat[x] && t.blocks[x] == s1.blocks[x]
    {
    }
  }

  /** The seek grew `c` into `c2`, and the copy loop grew `c2` into `cF`:
      together they grew `c` into `cF`. */
  lemma GrownAfterSeek(s: State, c: seq<nat>, m: Fat.Table, c2: seq<nat>, t: State, cF: seq<nat>)
    requires Shaped(s) && Fat.Shaped(m) && Shaped(t) && Extends(s.fat, c, m, c2)
    requires Grown(s.(fat := m), c2, t, cF)
    ensures Grown(s, c, t, cF)
  {
    assert Shaped(s.(fat := m));
    assert cF[..|c|] == cF[..|c2|][..|c|];
    forall j | |c| <= j < |cF|
      ensures s.fat[cF[j]].Free?
    {
      if j < |c2| {
        assert cF[j] == cF[..|c2|][j];
      } else {
        FreeOffWhole(m, c2, cF[j]);
      }
    }
    forall x | 0 <= x < Fat.BLOCK_NUM && x !in cF
      ensures t.fat[x] == s.fat[x] && t.blocks[x] == s.blocks[x]
    {
    }
  }

  /** The copy loop run from offset `off` of the `k`-th block of the whole
      chain `c2` of `s1`: the chain up to that block, then the chain the
      loop grew from there, holds the data at the cursor and kept the bytes
      before it; the loop stopped short only on a full disk. */
  lemma CopiedOn(s1: State, c2: seq<nat>, k: nat, off: nat, data: seq<byte>, blk: nat, prog: Progress) returns (cF: seq<nat>)
    requires Shaped(s1) && Whole(s1.fat, c2) && k < |c2| && off < Fat.BLOCK_SIZE
    requires blk == c2[k] && prog == WriteLoop(s1, blk, off, data, 0)
    ensures Whole(prog.fs.fat, cF) && cF[0] == c2[0]
    ensures prog.written < |data| ==> Fat.Full(prog.fs.fat)
    ensures CopiedAt(s1.blocks, c2, k * Fat.BLOCK_SIZE + off, data, prog.written, prog.fs.blocks, cF)
    ensures Grown(s1, c2, prog.fs, cF)
  {
    var c3 := CopiedRun(s1, c2, k, off, data, blk, prog);
    WroteFacts(s1, c2[k..], off, data, prog, c3);
    Joined(s1, c2, k, off, data, prog, c3);
    cF := c2[..k] + c3;
    GrownWhole(s1, c2, k, prog.fs, c3);
  }

  /** `bytes` hold the first `w` bytes of `data` from `pos` on. */
  ghost predicate HoldsAt(bytes: seq<byte>, pos: nat, data: seq<byte>, w: nat)
  {
    w <= |data| && pos + w <= |bytes| && bytes[pos..pos + w] == data[..w]
  }

  /** `now` keeps the bytes of `before` ahead of `pos`, as far as `before`
      reaches. */
  ghost predicate KeptBefore(before: seq<byte>, pos: nat, now: seq<byte>)
  {
    var q := if pos < |before| then pos else |before|;
    q <= |now| && now[..q] == before[..q]
  }

  /** Growing a chain keeps its bytes. */
  lemma GrownKept(b: seq<Block>, c: seq<nat>, c2: seq<nat>, pos: nat)
    requires forall j :: 0 <= j < |c2| ==> c2[j] < |b|
    requires |c| <= |c2| && c2[..|c|] == c
    ensures KeptBefore(Concat(b, c), pos, Concat(b, c2))
  {
    var q := if pos < |Concat(b, c)| then pos else |Concat(b, c)|;
    ConcatPrefix(b, c, c2, q);
  }

  /** Bytes that agree ahead of `pos` with bytes that kept `before` keep
      `before` too. */
  lemma KeptOn(before: seq<byte>, pos: nat, mid: seq<byte>, now: seq<byte>)
    requires KeptBefore(before, pos, mid) && pos <= |mid| && pos <= |now| && now[..pos] == mid[..pos]
    ensures KeptBefore(before, pos, now)
  {
    var q := if pos < |before| then pos else |before|;
    assert now[..q] == now[..pos][..q];
    assert mid[..q] == mid[..pos][..q];
  }

  /** Bytes copied onto a grown chain keep the bytes of the chain it grew
      from ahead of the cursor. */
  lemma CopiedKept(b1: seq<Block>, c: seq<nat>, c2: seq<nat>, pos: nat, data: seq<byte>, w: nat, b2: seq<Block>, cF: seq<nat>)
    requires |c| <= |c2| && c2[..|c|] == c
    requires CopiedAt(b1, c2, pos, data, w, b2, cF)
    ensures HoldsAt(Concat(b2, cF), pos, data, w)
    ensures KeptBefore(Concat(b1, c), pos, Concat(b2, cF))
  {
    GrownKept(b1, c, c2, pos);
    KeptOn(Concat(b1, c), pos, Concat(b1, c2), Concat(b2, cF));
  }

  /** The copy step of `my_write` on descriptor `fd`, when the seek failed
      on a full disk: it grew the chain `c` into `c2` and copied nothing. */
  lemma CopiedNone(s: State, fd: nat, data: seq<byte>, c: seq<nat>, c2: seq<nat>)
    requires Shaped(s) && fd < MAX_OPEN_FILES && Sound(s, s.fds[fd].head)
    requires c == Fat.Chain(s.fat, s.fds[fd].head, Fat.BLOCK_NUM)
    requires Extends(s.fat, c, SeekForWrite(s.fat, c[0], s.fds[fd].pos / Fat.BLOCK_SIZE).fat, c2)
    requires Landed(SeekForWrite(s.fat, c[0], s.fds[fd].pos / Fat.BLOCK_SIZE), s.fds[fd].pos / Fat.BLOCK_SIZE, c2)
    requires SeekForWrite(s.fat, c[0], s.fds[fd].pos / Fat.BLOCK_SIZE).blk.None?
    ensures var p := Copied(s, fd, data);
      && Whole(p.fs.fat, c2) && p.written == 0 && Fat.Full(p.fs.fat)
      && KeptBefore(Concat(s.blocks, c), s.fds[fd].pos, Concat(p.fs.blocks, c2))
      && Grown(s, c, p.fs, c2)
  {
    GrownKept(s.blocks, c, c2, s.fds[fd].pos);
  }

  /** The cursor `pos` as a block index and an offset in that block. */
  lemma Cursor(pos: nat) returns (k: nat, off: nat)
    ensures k == pos / Fat.BLOCK_SIZE && off == pos % Fat.BLOCK_SIZE
    ensures off < Fat.BLOCK_SIZE && pos == k * Fat.BLOCK_SIZE + off
  {
    k, off := pos / Fat.BLOCK_SIZE, pos % Fat.BLOCK_SIZE;
    CursorBlock(pos, 0);
  }

  /** The copy step of `my_write` on descriptor `fd`, when the seek landed
      on the `k`-th block of the chain `c` grown into `c2`. */
  lemma CopiedSome(s: State, pos: nat, data: seq<byte>, c: seq<nat>, c2: seq<nat>, k: nat, off: nat, m: Landing, p: Progress) returns (cF: seq<nat>)
    requires Shaped(s) && Whole(s.fat, c) && off < Fat.BLOCK_SIZE && pos == k * Fat.BLOCK_SIZE + off
    requires Fat.Shaped(m.fat) && m.blk.Some? && Extends(s.fat, c, m.fat, c2) && Landed(m, k, c2)
    requires p == WriteLoop(s.(fat := m.fat), m.blk.value, off, data, 0)
    ensures && Whole(p.fs.fat, cF) && cF[0] == c[0]
      && (p.written < |data| ==> Fat.Full(p.fs.fat))
      && HoldsAt(Concat(p.fs.blocks, cF), pos, data, p.written)
      && KeptBefore(Concat(s.blocks, c), pos, Concat(p.fs.blocks, cF))
      && Grown(s, c, p.fs, cF)
  {
    cF := CopiedOn(s.(fat := m.fat), c2, k, off, data, m.blk.value, p);
    CopiedKept(s.blocks, c, c2, pos, data, p.written, p.fs.blocks, cF);
    GrownAfterSeek(s, c, m.fat, c2, p.fs, cF);
  }

  /** The copy step of `my_write` on descriptor `fd` of a file whose chain
      is whole: the file's chain grows into the whole chain `cF`, which
      holds the data copied at the cursor and keeps the file's bytes ahead
      of it; the step copies less than asked only on a full disk. */
  lemma CopiedChain(s: State, fd: nat, data: seq<byte>) returns (cF: seq<nat>)
    requires Shaped(s) && fd < MAX_OPEN_FILES && Sound(s, s.fds[fd].head)
    ensures var p := Copied(s, fd, data); var pos := s.fds[fd].pos;
      && Whole(p.fs.fat, cF) && cF[0] == s.fds[fd].head
      && (p.written < |data| ==> Fat.Full(p.fs.fat))
      && (p.written > 0 ==> HoldsAt(Concat(p.fs.blocks, cF), pos, data, p.written))
      && KeptBefore(Concat(s.blocks, Fat.Chain(s.fat, s.fds[fd].head, Fat.BLOCK_NUM)), pos, Concat(p.fs.blocks, cF))
      && Grown(s, Fat.Chain(s.fat, s.fds[fd].head, Fat.BLOCK_NUM), p.fs, cF)
  {
    var f := s.fds[fd];
    var c := Fat.Chain(s.fat, f.head, Fat.BLOCK_NUM);
    var k, off := Cursor(f.pos);
    var c2 := SeekChain(s.fat, c, k);
    var m := SeekForWrite(s.fat, f.head, k);
    if m.blk.None? {
      CopiedNone(s, fd, data, c, c2);
      cF := c2;
    } else {
      var p := WriteLoop(s.(fat := m.fat), m.blk.value, off, data, 0);
      assert p == Copied(s, fd, data);
      cF := CopiedSome(s, f.pos, data, c, c2, k, off, m, p);
    }
  }

  /** A block off the chain a write grew from, and allocated, stays off
      the grown chain and keeps its contents. */
  lemma GrownKeepsOff(s: State, c: seq<nat>, t: State, cF: seq<nat>, x: nat)
    requires Shaped(s) && Shaped(t) && Grown(s, c, t, cF)
    requires x < Fat.BLOCK_NUM && x !in c && !s.fat[x].Free?
    ensures x !in cF && t.blocks[x] == s.blocks[x]
  {
    forall j | 0 <= j < |cF|
      ensures cF[j] != x
    {
      if j < |c| {
        assert cF[j] == cF[..|c|][j];
      }
    }
  }

  /**
   * `my_write` of `data` on a writable descriptor `fd` whose file's chain
   * is whole: the chain stays whole and grows only by blocks that were
   * free, the bytes written sit at the old cursor, the file's bytes ahead
   * of the cursor are kept, and a short count means the disk is full. No
   * table entry or block off the grown chain changes, except the current
   * directory's block.
   */
  lemma WriteFile(s: State, fd: int, data: seq<byte>)
    requires Shaped(s) && 0 <= fd < MAX_OPEN_FILES && s.fds[fd].used && s.fds[fd].canWrite
    requires Sound(s, s.fds[fd].head)
    ensures var r := Write(s, fd, data); var f := s.fds[fd];
      && Sound(r.fs, f.head)
      && (r.status < |data| ==> Fat.Full(r.fs.fat))
      && (r.status > 0 ==> HoldsAt(FileData(r.fs, f.head), f.pos, data, r.status))
      && KeptBefore(FileData(s, f.head), f.pos, FileData(r.fs, f.head))
    ensures var r := Write(s, fd, data); var f := s.fds[fd];
      var c := Fat.Chain(s.fat, f.head, Fat.BLOCK_NUM); var c2 := Fat.Chain(r.fs.fat, f.head, Fat.BLOCK_NUM);
      && |c| <= |c2| && c2[..|c|] == c
      && (forall j :: |c| <= j < |c2| ==> s.fat[c2[j]].Free?)
      && (forall x :: 0 <= x < Fat.BLOCK_NUM && x !in c2 && x != CwdBlock(s) ==>
            r.fs.fat[x] == s.fat[x] && r.fs.blocks[x] == s.blocks[x])
  {
    var cF := CopiedChain(s, fd, data);
    var p := Copied(s, fd, data);
    var r := Write(s, fd, data);
    WriteIsCopied(s, fd, data);
    WholeChain(r.fs.fat, cF);
    ConcatSameBytes(p.fs.blocks, r.fs.blocks, cF);
  }

  /**
   * `my_write` records the new size in the file's directory entry: when
   * the cursor passed the descriptor's size, the first entry of the file's
   * name in the current directory takes the new cursor as its size and no
   * other slot changes; otherwise the directory is as it was. This holds
   * while the current directory's block is allocated and off the file's
   * chain, so that the copy itself cannot overwrite the directory.
   */
  lemma WriteEntry(s: State, fd: int, data: seq<byte>)
    requires Shaped(s) && 0 <= fd < MAX_OPEN_FILES && s.fds[fd].used && s.fds[fd].canWrite
    requires Sound(s, s.fds[fd].head)
    requires CwdBlock(s) !in Fat.Chain(s.fat, s.fds[fd].head, Fat.BLOCK_NUM) && !s.fat[CwdBlock(s)].Free?
    ensures var r := Write(s, fd, data); var f := s.fds[fd];
      var q := f.pos + r.status; var i := Find(CwdSlots(s), f.name);
      && (q > f.size && i >= 0 ==> CwdSlots(r.fs) == CwdSlots(s)[i := CwdSlots(s)[i].(size := q)])
      && (q <= f.size || i == -1 ==> CwdSlots(r.fs) == CwdSlots(s))
  {
    var cF := CopiedChain(s, fd, data);
    var p := Copied(s, fd, data);
    GrownKeepsOff(s, Fat.Chain(s.fat, s.fds[fd].head, Fat.BLOCK_NUM), p.fs, cF, CwdBlock(s));
    WriteIsCopied(s, fd, data);
    assert CwdSlots(p.fs) == CwdSlots(s);
  }
}
