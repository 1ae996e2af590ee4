/**
 * Properties that span several operations of the file system: what a
 * write leaves for a later read, and what `my_create` then `my_rm` leave
 * of the allocation table.
 */
module Scenarios {
  import opened Wrappers
  import Fat
  import opened Directory
  import opened FileSystem
  import opened FileIo
  import opened Content
  import opened Writing

  /** After the write, the file's entry is still the one the lookup finds,
      and it records the count written as the size. */
  lemma WrittenEntry(s: State, fd: nat, data: seq<byte>)
    requires Shaped(s) && fd < MAX_OPEN_FILES && s.fds[fd].used && s.fds[fd].canWrite
    requires s.fds[fd].pos == 0 && s.fds[fd].size == 0 && Sound(s, s.fds[fd].head)
    requires var i := Find(CwdSlots(s), s.fds[fd].name); i >= 0 && CwdSlots(s)[i].size == 0
    requires CwdBlock(s) !in Fat.Chain(s.fat, s.fds[fd].head, Fat.BLOCK_NUM) && !s.fat[CwdBlock(s)].Free?
    ensures var w := Write(s, fd, data); var f := s.fds[fd]; var i := Find(CwdSlots(s), f.name);
      && Find(CwdSlots(w.fs), f.name) == i
      && CwdSlots(w.fs)[i] == CwdSlots(s)[i].(size := w.status)
      && Sound(w.fs, f.head) && w.fs.fds[fd].used && w.status <= |data|
      && (w.status > 0 ==> HoldsAt(FileData(w.fs, f.head), 0, data, w.status))
  {
    var f := s.fds[fd];
    var w := Write(s, fd, data);
    WriteFile(s, fd, data);
    WriteEntry(s, fd, data);
    if w.status > 0 {
      FindResized(CwdSlots(s), Find(CwdSlots(s), f.name), w.status, f.name);
    }
  }

  /** Closing a used descriptor and opening a readable file of the current
      directory in mode 'r' hands out a descriptor at cursor 0 with the
      entry's head and size, and leaves the disk alone. */
  lemma Reopened(t: State, fd: nat, name: string)
    requires Shaped(t) && fd < MAX_OPEN_FILES && t.fds[fd].used
    requires var i := Find(CwdSlots(t), name); i >= 0 && !CwdSlots(t)[i].isDir && CwdSlots(t)[i].canRead
    ensures var c := Close(t, fd); var o := Open(c.fs, name, 'r');
      var e := CwdSlots(t)[Find(CwdSlots(t), name)];
      && c.status == 0 && o.status >= 0
      && o.fs.fat == t.fat && o.fs.blocks == t.blocks
      && o.fs.fds[o.status] == OpenFile(true, name, e.head, e.size, 0, true, false)
  {
    var c := Close(t, fd);
    assert CwdSlots(c.fs) == CwdSlots(t);
  }

  /** A read from cursor 0 of a descriptor recording `n` bytes, on a file
      whose first `n` bytes are data's, returns those bytes. */
  lemma ReadBack(o: State, g: nat, w: State, head: nat, data: seq<byte>, n: nat)
    requires Shaped(o) && Sound(w, head) && o.fat == w.fat && o.blocks == w.blocks
    requires g < MAX_OPEN_FILES && o.fds[g].used && o.fds[g].canRead
    requires o.fds[g].head == head && o.fds[g].pos == 0 && o.fds[g].size == n
    requires n <= |data| && (n > 0 ==> HoldsAt(FileData(w, head), 0, data, n))
    ensures Read(o, g, |data|).status == n
    ensures Read(o, g, |data|).bytes == data[..n]
  {
    if n > 0 {
      assert FileData(o, head) == FileData(w, head);
      ReadFile(o, g, |data|);
    }
  }

  /**
   * Write, close, open for reading, read: `data` written from cursor 0 on
   * a writable descriptor of an empty file whose chain is whole comes
   * back, as far as the write got, from a read on the descriptor that
   * `my_open` in mode 'r' then hands out. The reader learns the size from
   * the directory entry the write updated. The file is the first entry of
   * its name in the current directory, readable, and that directory's
   * block is allocated and off the file's chain.
   */
  lemma WriteThenRead(s: State, fd: nat, data: seq<byte>)
    requires Shaped(s) && fd < MAX_OPEN_FILES && s.fds[fd].used && s.fds[fd].canWrite
    requires s.fds[fd].pos == 0 && s.fds[fd].size == 0 && Sound(s, s.fds[fd].head)
    requires var i := Find(CwdSlots(s), s.fds[fd].name);
      && i >= 0 && !CwdSlots(s)[i].isDir && CwdSlots(s)[i].canRead
      && CwdSlots(s)[i].head == s.fds[fd].head && CwdSlots(s)[i].size == 0
    requires CwdBlock(s) !in Fat.Chain(s.fat, s.fds[fd].head, Fat.BLOCK_NUM) && !s.fat[CwdBlock(s)].Free?
    ensures var w := Write(s, fd, data); var c := Close(w.fs, fd);
      var o := Open(c.fs, s.fds[fd].name, 'r');
      && c.status == 0 && o.status >= 0
      && Read(o.fs, o.status, |data|).status == w.status
      && Read(o.fs, o.status, |data|).bytes == data[..w.status]
  {
    var f := s.fds[fd];
    var w := Write(s, fd, data);
    WrittenEntry(s, fd, data);
    Reopened(w.fs, fd, f.name);
    var o := Open(Close(w.fs, fd).fs, f.name, 'r');
    ReadBack(o.fs, o.status, w.fs, f.head, data, w.status);
  }

  /** Changing the size of the entry the lookup finds keeps it the one the
      lookup finds. */
  lemma FindResized(slots: seq<DirEntry>, i: nat, size: nat, name: string)
    requires i < |slots| && Find(slots, name) == i
    ensures Find(slots[i := slots[i].(size := size)], name) == i
  {
    var t := slots[i := slots[i].(size := size)];
    assert Matches(t[i], name);
    assert forall j :: 0 <= j < i ==> t[j] == slots[j];
  }

  /** An entry stored in a free slot of a directory that did not hold its
      name is the one the lookup finds. */
  lemma FindStored(slots: seq<DirEntry>, i: nat, e: DirEntry, name: string)
    requires i < |slots| && Find(slots, name) == -1 && Matches(e, name)
    ensures Find(slots[i := e], name) == i
  {
    assert slots[i := e][i] == e;
  }

  /**
   * `my_create` then `my_rm` of the same name, in a directory whose block
   * is allocated and with no descriptor carrying that name: for a non-empty
   * name the removal succeeds, the allocation table is back as it was, so
   * is the free-block count, and the slot the entry took is blank. The
   * empty name is never found again, so its block stays allocated.
   */
  lemma CreateThenRm(s: State, name: string, now: int)
    requires Shaped(s) && Fat.Acyclic(s.fat) && !s.fat[CwdBlock(s)].Free? && !IsOpen(s, name)
    requires Create(s, name, now).status == 0
    ensures var c := Create(s, name, now); var r := Rm(c.fs, name);
      && (|name| > 0 ==>
            && r.status == 0 && r.fs.fat == s.fat
            && Fat.FreeCount(r.fs.fat) == Fat.FreeCount(s.fat)
            && CwdSlots(r.fs) == CwdSlots(s)[FirstEmpty(CwdSlots(s)) := Blank])
      && (|name| == 0 ==> r.status == -1 && Fat.FreeCount(r.fs.fat) + 1 == Fat.FreeCount(s.fat))
  {
    var c := Create(s, name, now);
    var i := FirstEmpty(CwdSlots(s));
    var e := CwdSlots(c.fs)[i];
    var b := e.head;
    assert c.fs.fat == Fat.Alloc(s.fat).1;
    Fat.AllocCount(s.fat);
    if |name| > 0 {
      assert CwdSlots(c.fs) == CwdSlots(s)[i := e];
      FindStored(CwdSlots(s), i, e, name);
      assert !IsOpen(c.fs, name);
      Fat.AllocAcyclic(s.fat);
      assert Fat.Chain(c.fs.fat, b, Fat.BLOCK_NUM) == [b];
      var r := Rm(c.fs, name);
      forall x | 0 <= x < Fat.BLOCK_NUM
        ensures r.fs.fat[x] == s.fat[x]
      {
        if x == b {
          assert x in Fat.Chain(c.fs.fat, b, Fat.BLOCK_NUM);
        } else {
          assert x !in Fat.Chain(c.fs.fat, b, Fat.BLOCK_NUM);
        }
      }
      assert CwdSlots(s)[i := e][i := Blank] == CwdSlots(s)[i := Blank];
    } else {
      assert Find(CwdSlots(c.fs), name) == -1;
    }
  }

  /**
   * Names are limited in bytes, not characters: ten characters from U+0800
   * to U+FFFF, such as ten Chinese characters, take 30 bytes, so
   * `my_create` and `my_mkdir` refuse such a name however empty the
   * directory and the disk are.
   */
  lemma WideNameRefused(s: State, name: string, now: int)
    requires Shaped(s) && |name| >= 10
    requires forall i :: 0 <= i < |name| ==> 0x800 <= (name[i] as int) < 0x1_0000
    ensures Create(s, name, now) == Step(-1, s)
    ensures Mkdir(s, name, now) == Step(-1, s)
  {
    ByteLengthWide(name);
  }

  /** The ten-character name "文件名字很长的一个名" is refused. */
  lemma TenChineseRefused(s: State, now: int)
    requires Shaped(s)
    ensures Create(s, "文件名字很长的一个名", now).status == -1
  {
    WideNameRefused(s, "文件名字很长的一个名", now);
  }

  /** Entering a directory and then ".." comes back to exactly where the
      walk started. */
  lemma CdThenUp(s: State, name: string)
    requires Shaped(s) && name != "." && name != ".." && name != "/"
    requires Cd(s, name).status == 0
    ensures Cd(Cd(s, name).fs, "..") == Step(0, s)
  {
    var r := Cd(s, name);
    assert r.fs.cwd[..|r.fs.cwd| - 1] == s.cwd;
  }

  /**
   * Save then load: the image a shaped, loop-free disk saves loads back
   * with every file reading as it did, whatever state the loader was in.
   * This holds by construction: the typed image keeps the table and the
   * blocks as they are, and loading a full image takes them back.
   */
  lemma SaveThenLoad(s: State, t: State, head: nat)
    requires Shaped(s) && Fat.Acyclic(s.fat) && Shaped(t) && head < Fat.BLOCK_NUM
    ensures ImageShaped(Save(s))
    ensures Fat.Acyclic(Load(t, Some(Save(s))).fat)
    ensures FileData(Load(t, Some(Save(s))), head) == FileData(s, head)
  {
  }

  /** The first `k` entries of a fresh table hold `k - 2` free ones: all
      but the root's and the table's own. */
  lemma {:induction false} FormatFreePrefix(fat: Fat.Table, k: nat)
    requires Fat.DATA_BLOCK <= k <= |fat|
    requires !fat[Fat.ROOT_BLOCK].Free? && !fat[Fat.FAT_BLOCK].Free?
    requires forall b :: Fat.DATA_BLOCK <= b < |fat| ==> fat[b].Free?
    ensures Fat.FreeCount(fat[..k]) == k - Fat.DATA_BLOCK
    decreases k
  {
    assert fat[..k][..k - 1] == fat[..k - 1];
    if k == Fat.DATA_BLOCK {
      assert fat[..k][k - 1] == fat[Fat.FAT_BLOCK];
      assert fat[..1][0] == fat[Fat.ROOT_BLOCK];
      assert fat[..1][..0] == [];
      assert Fat.FreeCount(fat[..1]) == 0;
    } else {
      FormatFreePrefix(fat, k - 1);
    }
  }

  /** A freshly formatted disk has every block but the first two free. */
  lemma FormatFree()
    ensures Fat.FreeCount(Format().fat) == Fat.BLOCK_NUM - Fat.DATA_BLOCK
    ensures !Fat.Full(Format().fat)
  {
    var fat := Format().fat;
    FormatFreePrefix(fat, |fat|);
    assert fat[..|fat|] == fat;
    assert fat[Fat.DATA_BLOCK].Free?;
  }
}
