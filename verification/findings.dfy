/**
 * Three places where `Lab5/douzza_FileSystem.c` does something its authors
 * evidently did not intend. Each is modelled here as written, next to a
 * lemma that exhibits the discrepancy on a concrete kind of input; the
 * corrected behaviour is what the rest of the model uses.
 */
module Findings {
  import opened Wrappers
  import Fat
  import opened Directory
  import opened FileSystem
  import opened FileIo
  import opened Writing
  import opened Seeking

  /**
   * Where the C's `fat[0xFFFF]` lies on the disk. The table starts at
   * block 1 and holds two-byte entries, so that entry sits at byte
   * 1024 + 2 * 0xFFFF of the disk: bytes 1022 and 1023 of block 128.
   */
  const STRAY_ADDRESS: nat := Fat.FAT_BLOCK * Fat.BLOCK_SIZE + 2 * Fat.EOF_BLOCK
  const STRAY_BLOCK: nat := STRAY_ADDRESS / Fat.BLOCK_SIZE
  const STRAY_OFFSET: nat := STRAY_ADDRESS % Fat.BLOCK_SIZE

  /** The 16-bit value `v` stored little-endian, as on x86, at offset `off`
      of block `b`. In a directory block those two bytes lie past its 21
      slots of 48 bytes, which end at byte 1008, so the slots are kept. */
  function StoreWord(blocks: seq<Block>, b: nat, off: nat, v: nat): (r: seq<Block>)
    requires |blocks| == Fat.BLOCK_NUM && b < Fat.BLOCK_NUM && off + 2 <= Fat.BLOCK_SIZE && v < 0x1_0000
    ensures |r| == |blocks|
    ensures forall x :: 0 <= x < |blocks| && x != b ==> r[x] == blocks[x]
    ensures blocks[b].DirBlock? ==> r[b] == blocks[b]
    ensures blocks[b].DataBlock? ==>
      && Bytes(r[b])[off..off + 2] == [(v % 256) as byte, (v / 256) as byte]
      && Bytes(r[b])[..off] == Bytes(blocks[b])[..off]
      && Bytes(r[b])[off + 2..] == Bytes(blocks[b])[off + 2..]
  {
    match blocks[b]
    case DirBlock(_) => blocks
    case DataBlock(_) =>
      var w: seq<byte> := [(v % 256) as byte, (v / 256) as byte];
      var r := blocks[b := DataBlock(Splice(Bytes(blocks[b]), off, w))];
      assert Bytes(r[b]) == Splice(Bytes(blocks[b]), off, w);
      r
  }

  /** What the as-written seek leaves: where it landed, and the blocks. */
  datatype Strayed = Strayed(m: Landing, blocks: seq<Block>)

  /**
   * The seek loop of `my_write` as written. It first steps to the value of
   * the current entry; at the end of the chain that value is the end
   * marker, so the freshly allocated block's number is stored in the end
   * marker's slot `fat[0xFFFF]`, which lies in block 128, and the chain is
   * never linked to the new block. A failed allocation leaves no block to
   * write into.
   */
  function SeekAsWritten(fat: Fat.Table, blocks: seq<Block>, cur: nat, k: nat): (r: Strayed)
    requires Fat.Shaped(fat) && |blocks| == Fat.BLOCK_NUM && cur < Fat.BLOCK_NUM
    ensures Fat.Shaped(r.m.fat) && |r.blocks| == Fat.BLOCK_NUM
    ensures r.m.blk.Some? ==> r.m.blk.value < Fat.BLOCK_NUM
    ensures forall x :: 0 <= x < Fat.BLOCK_NUM && x != STRAY_BLOCK ==> r.blocks[x] == blocks[x]
    decreases k
  {
    if k == 0 then Strayed(Landing(fat, Some(cur)), blocks)
    else
      match fat[cur]
      case Next(n) => SeekAsWritten(fat, blocks, n, k - 1)
      case Terminal =>
        var (nb, fat1) := Fat.Alloc(fat);
        if nb == 0 then Strayed(Landing(fat, None), blocks)
        else SeekAsWritten(fat1, StoreWord(blocks, STRAY_BLOCK, STRAY_OFFSET, nb), nb, k - 1)
      case Free => Strayed(Landing(fat, None), blocks)
  }

  /**
   * A one-block file whose cursor is at 1024, on a disk with a free block:
   * as written, the seek lands on a block that the file's chain does not
   * reach, so the bytes written there are lost to the file, and it writes
   * the new block's number over bytes 1022 and 1023 of block 128, which
   * belong to whatever file owns that block. The corrected seek links the
   * new block after the head, lands on it, and touches no block's bytes.
   */
  lemma SeekPastEnd(fat: Fat.Table, blocks: seq<Block>, h: nat)
    requires Fat.Shaped(fat) && |blocks| == Fat.BLOCK_NUM && h < Fat.BLOCK_NUM
    requires fat[h].Terminal? && !Fat.Full(fat)
    ensures STRAY_BLOCK == 128 && STRAY_OFFSET == 1022
    ensures var r := SeekAsWritten(fat, blocks, h, 1);
      && r.m.blk.Some? && r.m.blk.value !in Fat.Chain(r.m.fat, h, Fat.BLOCK_NUM)
      && (blocks[STRAY_BLOCK].DataBlock? ==>
            Bytes(r.blocks[STRAY_BLOCK])[STRAY_OFFSET..STRAY_OFFSET + 2]
            == [(r.m.blk.value % 256) as byte, (r.m.blk.value / 256) as byte])
    ensures var m := SeekForWrite(fat, h, 1);
      m.blk.Some? && m.blk.value in Fat.Chain(m.fat, h, Fat.BLOCK_NUM)
  {
    var r := SeekAsWritten(fat, blocks, h, 1);
    assert Fat.Chain(r.m.fat, h, Fat.BLOCK_NUM) == [h];
    var m2 := SeekForWrite(fat, h, 1);
    var nb := m2.blk.value;
    assert Fat.Chain(m2.fat, h, Fat.BLOCK_NUM) == [h] + Fat.Chain(m2.fat, nb, Fat.BLOCK_NUM - 1);
  }

  /** The index of the last '/' of `t`, where `strrchr` points, or -1. */
  function LastSlash(t: string): (r: int)
    ensures -1 <= r < |t|
    ensures r >= 0 ==> t[r] == '/'
    ensures forall j :: r < j < |t| ==> t[j] != '/'
  {
    if |t| == 0 then -1
    else if t[|t| - 1] == '/' then |t| - 1
    else LastSlash(t[..|t| - 1])
  }

  /**
   * `my_cd("..")` as written, on the two things the C keeps: the path
   * string and the current directory block. At "/" nothing changes.
   * Otherwise the path is cut at its last '/': a cut at the leading '/'
   * gives the root, in path and block; any other cut keeps the block,
   * unless nothing followed the '/', in which case the path is cut once
   * more and the block is reset to the root's, however deep the path is.
   * The C never looks at a directory entry on the way up.
   */
  function CdUpOn(path: string, block: nat): (r: (string, nat))
    requires |path| > 0 && path[0] == '/'
    ensures |r.0| > 0 && r.0[0] == '/' && r.0 <= path
    ensures r.1 == block || r.1 == Fat.ROOT_BLOCK
    ensures path == "/" ==> r == (path, block)
    ensures path != "/" ==> |r.0| < |path|
    ensures var k := LastSlash(path);
      path != "/" && 0 < k < |path| - 1 ==> r == (path[..k], block)
    ensures path != "/" && LastSlash(path) == 0 ==> r == ("/", Fat.ROOT_BLOCK)
    ensures path != "/" && LastSlash(path) == |path| - 1 ==> r.1 == Fat.ROOT_BLOCK
  {
    if path == "/" then (path, block)
    else
      var k := LastSlash(path);
      if k == 0 then ("/", Fat.ROOT_BLOCK)
      else
        var up := path[..k];
        if k + 1 < |path| then (up, block)
        else
          var k2 := LastSlash(up);
          if k2 == 0 then ("/", Fat.ROOT_BLOCK)
          else (up[..k2], Fat.ROOT_BLOCK)
  }

  /** Every path the model keeps starts at the root's '/'. */
  lemma {:induction false} PathRooted(cwd: seq<Frame>)
    ensures |Path(cwd)| > 0 && Path(cwd)[0] == '/'
  {
    if |cwd| > 0 {
      var up := cwd[..|cwd| - 1];
      if |up| == 0 {
        assert PathOf(up) == "";
      } else {
        PathRooted(up);
        assert Path(up) == PathOf(up);
      }
      assert PathOf(cwd) == PathOf(up) + "/" + cwd[|cwd| - 1].name;
    }
  }

  /** `my_cd("..")` as written, on the path and block of a model state. */
  function CdUpAsWritten(s: State): (r: (string, nat))
    requires Shaped(s)
    ensures r.1 == CwdBlock(s) || r.1 == Fat.ROOT_BLOCK
    ensures |s.cwd| == 0 ==> r == ("/", Fat.ROOT_BLOCK)
    ensures |r.0| <= |Path(s.cwd)| && r.0 <= Path(s.cwd)
  {
    PathRooted(s.cwd);
    CdUpOn(Path(s.cwd), CwdBlock(s))
  }

  /** A name with no '/' in it, as a directory name usually is. */
  predicate Plain(name: string)
  {
    |name| > 0 && forall i :: 0 <= i < |name| ==> name[i] != '/'
  }

  /** The last '/' of a path ending in a plain name is the one before it. */
  lemma LastSlashBefore(a: string, name: string)
    requires Plain(name)
    ensures LastSlash(a + "/" + name) == |a|
  {
    var t := a + "/" + name;
    var k := LastSlash(t);
    assert t[|a|] == '/';
  }

  /**
   * When the innermost name holds no '/', the as-written `..` shows the
   * path the corrected `Cd` shows. At the root or one level down it also
   * lands on the corrected block; deeper it keeps the current block.
   */
  lemma CdUpPlain(s: State)
    requires Shaped(s)
    requires |s.cwd| > 0 ==> Plain(s.cwd[|s.cwd| - 1].name)
    ensures |s.cwd| <= 1 ==> CdUpAsWritten(s) == (Path(Cd(s, "..").fs.cwd), CwdBlock(Cd(s, "..").fs))
    ensures |s.cwd| >= 2 ==> CdUpAsWritten(s) == (Path(Cd(s, "..").fs.cwd), CwdBlock(s))
  {
    if |s.cwd| > 0 {
      var up := s.cwd[..|s.cwd| - 1];
      var f := s.cwd[|s.cwd| - 1];
      assert s.cwd == up + [f];
      assert up + [f] == s.cwd;
      assert PathOf(s.cwd) == PathOf(up) + "/" + f.name;
      LastSlashBefore(PathOf(up), f.name);
      if |up| > 0 {
        PathRooted(up);
        assert Path(up) == PathOf(up);
        assert (PathOf(up) + "/" + f.name)[..|PathOf(up)|] == PathOf(up);
      } else {
        assert PathOf(up) == "";
      }
    }
  }

  /**
   * Two levels down, in a directory with a plain name whose block differs
   * from its parent's: as written, ".." shows the parent's path but stays
   * in the inner directory's block; the corrected `Cd` moves to the
   * parent's block.
   */
  lemma CdUpStaysDeep(s: State)
    requires Shaped(s) && |s.cwd| >= 2 && s.cwd[|s.cwd| - 1].block != s.cwd[|s.cwd| - 2].block
    requires Plain(s.cwd[|s.cwd| - 1].name)
    ensures CdUpAsWritten(s).0 == Path(Cd(s, "..").fs.cwd)
    ensures CdUpAsWritten(s).1 == CwdBlock(s)
    ensures CwdBlock(Cd(s, "..").fs) == s.cwd[|s.cwd| - 2].block
    ensures CdUpAsWritten(s).1 != CwdBlock(Cd(s, "..").fs)
  {
    CdUpPlain(s);
  }

  /**
   * `my_mkdir` takes "x/y" as one name. Entered from the root, its path
   * reads "/x/y", and the as-written `..` cuts at the '/' inside the name:
   * the path shows "/x" and the block stays the entered directory's,
   * while the corrected `Cd` returns to the root.
   */
  lemma CdUpInsideName(s: State, b: nat)
    requires Shaped(s) && s.cwd == [Frame("x/y", b)]
    ensures Path(s.cwd) == "/x/y"
    ensures CdUpAsWritten(s) == ("/x", b)
    ensures Path(Cd(s, "..").fs.cwd) == "/" && CwdBlock(Cd(s, "..").fs) == Fat.ROOT_BLOCK
  {
    assert s.cwd[..0] == [];
    assert PathOf(s.cwd) == PathOf(s.cwd[..0]) + "/" + "x/y";
    assert PathOf(s.cwd) == "/x/y";
    assert LastSlash("/x/y") == 2 by {
      assert "/x/y"[2] == '/' && "/x/y"[3] != '/';
    }
    assert "/x/y"[..2] == "/x";
  }

  /**
   * A name ending in '/', such as "x/", entered from "/a": the path reads
   * "/a/x/", and the as-written `..` takes the trailing-'/' branch, cuts
   * the path to "/a" and resets the block to the root's, although "/a" is
   * not the root. The corrected `Cd` returns to a's block.
   */
  lemma CdUpTrailingSlash(s: State, a: nat, b: nat)
    requires Shaped(s) && s.cwd == [Frame("a", a), Frame("x/", b)]
    ensures Path(s.cwd) == "/a/x/"
    ensures CdUpAsWritten(s) == ("/a", Fat.ROOT_BLOCK)
    ensures Path(Cd(s, "..").fs.cwd) == "/a" && CwdBlock(Cd(s, "..").fs) == a
  {
    assert s.cwd[..1] == [Frame("a", a)];
    assert s.cwd[..1][..0] == [];
    assert PathOf(s.cwd[..1]) == "/a";
    assert Path(s.cwd) == "/a/x/";
    assert LastSlash("/a/x/") == 4;
    assert "/a/x/"[..4] == "/a/x";
    assert LastSlash("/a/x") == 2 by {
      assert "/a/x"[2] == '/' && "/a/x"[3] != '/';
    }
    assert "/a/x"[..2] == "/a";
  }

  /**
   * `my_open` as written: the same steps as the corrected `Open`, except
   * that the descriptor's size is copied from the entry before mode 'w'
   * truncates the file.
   */
  function OpenAsWritten(s: State, name: string, mode: char): (r: Step)
    requires Shaped(s)
    ensures Shaped(r.fs)
  {
    var r := Open(s, name, mode);
    if r.status < 0 then r
    else
      var e := CwdSlots(s)[Find(CwdSlots(s), name)];
      Step(r.status, r.fs.(fds := r.fs.fds[r.status := r.fs.fds[r.status].(size := e.size)]))
  }

  /**
   * A file whose entry records 5 bytes, opened in mode 'w': as written the
   * descriptor still records 5 bytes while the truncated entry records 0,
   * and a write of fewer bytes leaves the descriptor at the stale 5; the
   * corrected `Open` records 0 in both, and the write records what it
   * wrote.
   */
  lemma OpenStaleSize(s: State, name: string, data: seq<byte>)
    requires Shaped(s)
    requires Find(CwdSlots(s), name) >= 0
    requires var e := CwdSlots(s)[Find(CwdSlots(s), name)];
      !e.isDir && e.canWrite && e.size > |data| && e.head != CwdBlock(s)
    requires FindFreeFd(s.fds) != -1
    ensures var i := Find(CwdSlots(s), name); var e := CwdSlots(s)[i];
      var r := OpenAsWritten(s, name, 'w');
      && r.status >= 0 && CwdSlots(r.fs)[i].size == 0
      && r.fs.fds[r.status].size == e.size
      && Write(r.fs, r.status, data).fs.fds[r.status].size == e.size
    ensures var i := Find(CwdSlots(s), name);
      var r := Open(s, name, 'w');
      && r.status >= 0 && CwdSlots(r.fs)[i].size == 0
      && r.fs.fds[r.status].size == 0
      && Write(r.fs, r.status, data).fs.fds[r.status].size == Write(r.fs, r.status, data).status
  {
  }

  /** Opening a file in mode 'w' leaves its head as a one-block whole
      chain, and the current directory's block in use. */
  lemma OpenedSound(s: State, name: string)
    requires Shaped(s) && Fat.Acyclic(s.fat)
    requires Find(CwdSlots(s), name) >= 0
    requires var e := CwdSlots(s)[Find(CwdSlots(s), name)];
      && !e.isDir && e.canWrite && e.head != CwdBlock(s)
      && CwdBlock(s) !in Fat.Chain(s.fat, e.head, Fat.BLOCK_NUM) && !s.fat[CwdBlock(s)].Free?
    requires FindFreeFd(s.fds) != -1
    ensures var e := CwdSlots(s)[Find(CwdSlots(s), name)];
      var r := Open(s, name, 'w');
      && r.status >= 0 && CwdBlock(r.fs) == CwdBlock(s)
      && Sound(r.fs, e.head) && Fat.Chain(r.fs.fat, e.head, Fat.BLOCK_NUM) == [e.head]
      && !r.fs.fat[CwdBlock(s)].Free?
  {
    var e := CwdSlots(s)[Find(CwdSlots(s), name)];
    var r := Open(s, name, 'w');
    Fat.TruncateAcyclic(s.fat, e.head);
    Fat.TruncateSpec(s.fat, e.head);
    assert Fat.Chain(r.fs.fat, e.head, Fat.BLOCK_NUM) == [e.head];
  }

  /**
   * The same file written with fewer bytes than its old size: as written,
   * the cursor never passes the stale size, so the entry is never updated
   * and still records 0 bytes, and a later open sees an empty file.
   */
  lemma StaleEntry(s: State, name: string, data: seq<byte>)
    requires Shaped(s) && Fat.Acyclic(s.fat)
    requires Find(CwdSlots(s), name) >= 0
    requires var e := CwdSlots(s)[Find(CwdSlots(s), name)];
      && !e.isDir && e.canWrite && e.size > |data| && e.head != CwdBlock(s)
      && CwdBlock(s) !in Fat.Chain(s.fat, e.head, Fat.BLOCK_NUM) && !s.fat[CwdBlock(s)].Free?
    requires FindFreeFd(s.fds) != -1
    ensures var i := Find(CwdSlots(s), name);
      var r := OpenAsWritten(s, name, 'w');
      var w := Write(r.fs, r.status, data);
      && r.status >= 0 && w.status >= 0
      && CwdSlots(w.fs)[i].size == 0
  {
    var i := Find(CwdSlots(s), name);
    var r := OpenAsWritten(s, name, 'w');
    OpenStaleSize(s, name, data);
    OpenedSound(s, name);
    WriteEntry(r.fs, r.status, data);
  }
}
