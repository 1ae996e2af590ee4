/**
 * Chained file I/O: `my_write` and `my_read` turn a cursor into the
 * (cursor / BLOCK_SIZE)-th block of the file's chain and the offset
 * cursor % BLOCK_SIZE inside it.
 */
module FileIo {
  import opened Wrappers
  import Fat
  import opened Directory
  import opened FileSystem

  function Min(a: int, b: int): int
  {
    if a <= b then a else b
  }

  /** `bytes` with `src` copied in at offset `off`. */
  function Splice(bytes: seq<byte>, off: nat, src: seq<byte>): (r: seq<byte>)
    requires off + |src| <= |bytes|
    ensures |r| == |bytes|
  {
    bytes[..off] + src + bytes[off + |src|..]
  }

  /** Where a step of `my_write`'s walk lands: the table after it (which
      may have a block appended) and the block reached, if any. */
  datatype Landing = Landing(fat: Fat.Table, blk: Option<nat>)

  /**
   * How `my_write` moves on from block `blk`: along its link, or, at the
   * end of the chain, into a freshly allocated block appended to it. None
   * when the allocation fails (the disk is full) or the entry is free.
   */
  function Advance(fat: Fat.Table, blk: nat): (r: Landing)
    requires Fat.Shaped(fat) && blk < Fat.BLOCK_NUM
    ensures Fat.Shaped(r.fat)
    ensures r.blk.Some? ==> r.blk.value < Fat.BLOCK_NUM
    ensures fat[blk].Next? ==> r == Landing(fat, Some(fat[blk].next))
    ensures fat[blk].Free? ==> r == Landing(fat, None)
    ensures fat[blk].Terminal? ==>
      && (r.blk.None? <==> Fat.Full(fat))
      && (r.blk.None? ==> r.fat == fat)
      && (r.blk.Some? ==> var nb := r.blk.value;
            && Fat.DATA_BLOCK <= nb && nb != blk && fat[nb].Free?
            && r.fat == fat[nb := Fat.Terminal][blk := Fat.Next(nb)])
  {
    match fat[blk]
    case Next(n) => Landing(fat, Some(n))
    case Terminal =>
      var (nb, fat1) := Fat.Append(fat, blk);
      if nb == 0 then Landing(fat, None) else Landing(fat1, Some(nb))
    case Free => Landing(fat, None)
  }

  /**
   * The seek of `my_write`: moves on `k` times from `cur`, appending fresh
   * blocks past the end of the chain. None when an allocation fails or the
   * walk meets a free entry; blocks linked before that stay linked.
   */
  function SeekForWrite(fat: Fat.Table, cur: nat, k: nat): (r: Landing)
    requires Fat.Shaped(fat) && cur < Fat.BLOCK_NUM
    ensures Fat.Shaped(r.fat)
    ensures r.blk.Some? ==> r.blk.value < Fat.BLOCK_NUM
    decreases k
  {
    if k == 0 then Landing(fat, Some(cur))
    else
      var m := Advance(fat, cur);
      if m.blk.None? then m else SeekForWrite(m.fat, m.blk.value, k - 1)
  }

  /** What a write loop leaves: the file system and the count written. */
  datatype Progress = Progress(fs: State, written: nat)

  /** Copies `src` into block `blk` from offset `off`, keeping the rest of
      the block's bytes. */
  function Fill(s: State, blk: nat, off: nat, src: seq<byte>): (s': State)
    requires Shaped(s) && blk < Fat.BLOCK_NUM && off + |src| <= Fat.BLOCK_SIZE
    ensures Shaped(s')
    ensures s' == s.(blocks := s.blocks[blk := s'.blocks[blk]])
  {
    s.(blocks := s.blocks[blk := DataBlock(Splice(Bytes(s.blocks[blk]), off, src))])
  }

  /** The bytes of the block `Fill` copied into: `src` at `off`, the rest kept. */
  lemma FillBytes(s: State, blk: nat, off: nat, src: seq<byte>)
    requires Shaped(s) && blk < Fat.BLOCK_NUM && off + |src| <= Fat.BLOCK_SIZE
    ensures var b := Bytes(Fill(s, blk, off, src).blocks[blk]);
      && b[off..off + |src|] == src
      && b[..off] == Bytes(s.blocks[blk])[..off]
      && b[off + |src|..] == Bytes(s.blocks[blk])[off + |src|..]
  {
  }

  /** How many bytes one pass of `my_write`'s copy loop copies: up to the
      end of the block or of the data, whichever comes first. */
  function Chunk(off: nat, data: seq<byte>, written: nat): (k: nat)
    requires off < Fat.BLOCK_SIZE && written <= |data|
    ensures k <= Fat.BLOCK_SIZE - off && written + k <= |data|
    ensures k == Fat.BLOCK_SIZE - off || written + k == |data|
  {
    Min(Fat.BLOCK_SIZE - off, |data| - written)
  }

  /** The state after one pass copied its chunk into block `blk`. */
  function Filled(s: State, blk: nat, off: nat, data: seq<byte>, written: nat): (s': State)
    requires Shaped(s) && blk < Fat.BLOCK_NUM && off < Fat.BLOCK_SIZE && written <= |data|
    ensures Shaped(s')
  {
    Fill(s, blk, off, data[written..written + Chunk(off, data, written)])
  }

  /** The state in which the loop goes on after a pass that filled block
      `blk` to its end: the table with the next block appended if need be. */
  function Moved(s: State, blk: nat, off: nat, data: seq<byte>, written: nat): (s': State)
    requires Shaped(s) && blk < Fat.BLOCK_NUM && off < Fat.BLOCK_SIZE && written <= |data|
    ensures Shaped(s')
  {
    var s1 := Filled(s, blk, off, data, written);
    s1.(fat := Advance(s1.fat, blk).fat)
  }

  /**
   * The copy loop of `my_write`, on block `blk` from offset `off` with
   * `data[written..]` still to copy: fills the block, and when bytes remain
   * moves on to the next block, where writing resumes at offset 0. Stops
   * short when it cannot move on.
   */
  function WriteLoop(s: State, blk: nat, off: nat, data: seq<byte>, written: nat): (r: Progress)
    requires Shaped(s) && blk < Fat.BLOCK_NUM && off < Fat.BLOCK_SIZE && written <= |data|
    ensures Shaped(r.fs)
    ensures written <= r.written <= |data|
    ensures r.fs.fds == s.fds && r.fs.cwd == s.cwd
    decreases |data| - written
  {
    if written >= |data| then Progress(s, written)
    else
      var w := written + Chunk(off, data, written);
      if w < |data| && off + Chunk(off, data, written) >= Fat.BLOCK_SIZE then
        var m := Advance(Filled(s, blk, off, data, written).fat, blk);
        if m.blk.None? then Progress(Filled(s, blk, off, data, written), w)
        else WriteLoop(Moved(s, blk, off, data, written), m.blk.value, 0, data, w)
      else Progress(Filled(s, blk, off, data, written), w)
  }

  /** The size bookkeeping at the end of `my_write`: when the cursor passed
      the descriptor's size, both the descriptor and the first entry of that
      name in the current directory take the new size. Only the current
      directory's block may change, and only in that entry's size. */
  function UpdateSize(s: State, fd: nat, newPos: nat): (s': State)
    requires Shaped(s) && fd < MAX_OPEN_FILES
    ensures Shaped(s')
    ensures s'.fat == s.fat && s'.cwd == s.cwd
    ensures forall x :: 0 <= x < Fat.BLOCK_NUM ==> Bytes(s'.blocks[x]) == Bytes(s.blocks[x])
    ensures forall x :: 0 <= x < Fat.BLOCK_NUM && x != CwdBlock(s) ==> s'.blocks[x] == s.blocks[x]
    ensures forall j :: 0 <= j < MAX_OPEN_FILES && j != fd ==> s'.fds[j] == s.fds[j]
    ensures s'.fds[fd] == s.fds[fd].(size := if newPos > s.fds[fd].size then newPos else s.fds[fd].size)
    ensures var f := s.fds[fd]; var i := Find(CwdSlots(s), f.name);
      && (newPos > f.size && i >= 0 ==> CwdSlots(s') == CwdSlots(s)[i := CwdSlots(s)[i].(size := newPos)])
      && (newPos <= f.size || i == -1 ==> s'.blocks == s.blocks)
  {
    var f := s.fds[fd];
    if newPos > f.size then
      var s1 := s.(fds := s.fds[fd := f.(size := newPos)]);
      var i := Find(CwdSlots(s1), f.name);
      if i == -1 then s1
      else
        assert s1.blocks[CwdBlock(s1)].DirBlock?;
        SetCwdSlot(s1, i, CwdSlots(s1)[i].(size := newPos))
    else s
  }

  /**
   * `my_write`: -1 for a bad or non-writable descriptor; otherwise seeks to
   * the cursor, copies the bytes, advances the cursor by the count written
   * and grows the recorded size when the cursor passed it. What the write
   * does to the file's chain, its bytes and its directory entry is proved
   * in `Writing.WriteFile`.
   */
  function Write(s: State, fd: int, data: seq<byte>): (r: Step)
    requires Shaped(s)
    ensures Shaped(r.fs)
    ensures r.status == -1 <==> fd < 0 || fd >= MAX_OPEN_FILES || !s.fds[fd].used || !s.fds[fd].canWrite
    ensures r.status == -1 ==> r.fs == s
    ensures r.status >= 0 ==>
      var f := s.fds[fd];
      var p := f.pos + r.status;
      && r.status <= |data|
      && r.fs.fds[fd] == f.(pos := p, size := if p > f.size then p else f.size)
      && (forall j :: 0 <= j < MAX_OPEN_FILES && j != fd ==> r.fs.fds[j] == s.fds[j])
      && r.fs.cwd == s.cwd
  {
    if fd < 0 || fd >= MAX_OPEN_FILES || !s.fds[fd].used then Step(-1, s)
    else if !s.fds[fd].canWrite then Step(-1, s)
    else
      var f := s.fds[fd];
      var m := SeekForWrite(s.fat, f.head, f.pos / Fat.BLOCK_SIZE);
      var s1 := s.(fat := m.fat);
      var prog := if m.blk.None? then Progress(s1, 0) else WriteLoop(s1, m.blk.value, f.pos % Fat.BLOCK_SIZE, data, 0);
      var p := f.pos + prog.written;
      var s2 := UpdateSize(prog.fs, fd, p);
      Step(prog.written, SetPos(s2, fd, p))
  }

  /** The state with the cursor of descriptor `fd` moved to `p`. */
  function SetPos(s: State, fd: nat, p: nat): (s': State)
    requires Shaped(s) && fd < MAX_OPEN_FILES
    ensures Shaped(s') && s'.fds == s.fds[fd := s.fds[fd].(pos := p)]
    ensures s'.fat == s.fat && s'.blocks == s.blocks && s'.cwd == s.cwd
  {
    s.(fds := s.fds[fd := s.fds[fd].(pos := p)])
  }

  /**
   * The copy loop of `my_read`, on block `blk` from offset `off` with `want`
   * bytes still to copy: copies up to the end of the block; the loop ends
   * once `want` bytes are copied, and otherwise (the block was read to its
   * end) follows the block's link, where reading resumes at offset 0,
   * stopping early at the end of the chain.
   */
  function ReadLoop(fat: Fat.Table, blocks: seq<Block>, blk: nat, off: nat, want: int): (r: seq<byte>)
    requires Fat.Shaped(fat) && |blocks| == Fat.BLOCK_NUM && blk < Fat.BLOCK_NUM && off < Fat.BLOCK_SIZE
    ensures |r| <= (if want > 0 then want else 0)
    decreases want
  {
    if want <= 0 then []
    else
      var chunk := Min(Fat.BLOCK_SIZE - off, want);
      var piece := Bytes(blocks[blk])[off..off + chunk];
      if chunk == want then piece
      else match fat[blk]
        case Next(n) => piece + ReadLoop(fat, blocks, n, 0, want - chunk)
        case _ => piece
  }

  datatype ReadStep = ReadStep(status: int, bytes: seq<byte>, fs: State)

  /**
   * The length `my_read` goes on with, for a cursor below the size. The C
   * compares the `int` sum of cursor and length with the `unsigned` size,
   * so a negative sum turns into a huge unsigned value and counts as past
   * the size too: such a length reads the rest of the file. A negative
   * length that keeps the sum at 0 or above is kept, and reads nothing.
   */
  function ReadLength(pos: nat, size: nat, length: int): (n: int)
    requires pos < size
    ensures n <= size - pos
    ensures 0 <= pos + length <= size ==> n == length
    ensures (pos + length > size || pos + length < 0) ==> n == size - pos
    ensures n > 0 <==> length > 0 || pos + length < 0
  {
    if pos + length < 0 || pos + length > size then size - pos else length
  }

  /**
   * `my_read`: -1 for a bad or non-readable descriptor or a chain shorter
   * than the cursor; 0 with no change at or past the recorded size;
   * otherwise copies at most min(length, size - cursor) bytes from the
   * cursor on and advances the cursor by the count read. A negative
   * length reads nothing, unless it takes the cursor below 0, in which
   * case the rest of the file is read (see `ReadLength`).
   */
  function Read(s: State, fd: int, length: int): (r: ReadStep)
    requires Shaped(s)
    ensures Shaped(r.fs)
    ensures r.fs.fat == s.fat && r.fs.blocks == s.blocks && r.fs.cwd == s.cwd
    ensures r.status == -1 <==>
      || fd < 0 || fd >= MAX_OPEN_FILES || !s.fds[fd].used || !s.fds[fd].canRead
      || (s.fds[fd].pos < s.fds[fd].size
          && Fat.Hop(s.fat, s.fds[fd].head, s.fds[fd].pos / Fat.BLOCK_SIZE).None?)
    ensures r.status == -1 ==> r.fs == s && r.bytes == []
    ensures r.status >= 0 ==>
      var f := s.fds[fd];
      && r.status == |r.bytes|
      && (f.pos >= f.size ==> r.status == 0 && r.fs == s)
      && (f.pos < f.size ==> r.status <= (if f.pos + length < 0 then f.size - f.pos else if length > 0 then length else 0))
      && (f.pos + length >= 0 && length <= 0 ==> r.status == 0 && r.fs == s)
      && f.pos + r.status <= (if f.pos < f.size then f.size else f.pos)
      && r.fs.fds == s.fds[fd := f.(pos := f.pos + r.status)]
  {
    if fd < 0 || fd >= MAX_OPEN_FILES || !s.fds[fd].used then ReadStep(-1, [], s)
    else if !s.fds[fd].canRead then ReadStep(-1, [], s)
    else
      var f := s.fds[fd];
      if f.pos >= f.size then ReadStep(0, [], s)
      else
        var len := ReadLength(f.pos, f.size, length);
        match Fat.Hop(s.fat, f.head, f.pos / Fat.BLOCK_SIZE)
        case None => ReadStep(-1, [], s)
        case Some(b) =>
          var bytes := ReadLoop(s.fat, s.blocks, b, f.pos % Fat.BLOCK_SIZE, len);
          ReadStep(|bytes|, bytes, s.(fds := s.fds[fd := f.(pos := f.pos + |bytes|)]))
  }
}
