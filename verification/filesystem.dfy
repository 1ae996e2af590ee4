/**
 * The in-memory file system: allocation table, typed disk blocks, the open
 * file table and the current directory, as one immutable state value. Each
 * operation returns its C status (0 or a descriptor on success, -1 on
 * failure) together with the new state.
 */
module FileSystem {
  import opened Wrappers
  import Fat
  import opened Directory

  newtype byte = x: int | 0 <= x < 256

  const MAX_OPEN_FILES: nat := 16

  /** A block seen as a directory (typed slots) or as file data (bytes). */
  datatype Block = DirBlock(slots: seq<DirEntry>) | DataBlock(bytes: seq<byte>)

  function ZeroBytes(): (z: seq<byte>)
    ensures |z| == Fat.BLOCK_SIZE
    ensures forall i :: 0 <= i < |z| ==> z[i] == 0
  {
    seq(Fat.BLOCK_SIZE, _ => 0)
  }

  /** The directory view of a block; a data block reads as an empty directory. */
  function Slots(b: Block): seq<DirEntry>
  {
    match b
    case DirBlock(slots) => slots
    case DataBlock(_) => EmptySlots()
  }

  /** The byte view of a block; a directory block (or a data block of the
      wrong size, which a shaped state never holds) reads as zero bytes. */
  function Bytes(b: Block): (r: seq<byte>)
    ensures |r| == Fat.BLOCK_SIZE
  {
    match b
    case DataBlock(bytes) => if |bytes| == Fat.BLOCK_SIZE then bytes else ZeroBytes()
    case DirBlock(_) => ZeroBytes()
  }

  /** An entry of the open file table (`OpenFileEntry`). */
  datatype OpenFile = OpenFile(
    used: bool,
    name: string,
    head: nat,
    size: nat,
    pos: nat,
    canRead: bool,
    canWrite: bool)

  const Unused: OpenFile := OpenFile(false, "", 0, 0, 0, false, false)

  /** One directory entered on the way from the root to the current directory. */
  datatype Frame = Frame(name: string, block: nat)

  datatype State = State(
    fat: Fat.Table,
    blocks: seq<Block>,
    fds: seq<OpenFile>,
    cwd: seq<Frame>)

  datatype Step = Step(status: int, fs: State)

  ghost predicate BlockShaped(b: Block)
  {
    match b
    case DirBlock(slots) =>
      |slots| == SLOTS && forall i :: 0 <= i < |slots| ==> slots[i].head < Fat.BLOCK_NUM
    case DataBlock(bytes) => |bytes| == Fat.BLOCK_SIZE
  }

  /** The fixed sizes of the C arrays, and block numbers that stay on the disk. */
  ghost predicate Shaped(s: State)
  {
    && Fat.Shaped(s.fat)
    && |s.blocks| == Fat.BLOCK_NUM
    && (forall b :: 0 <= b < |s.blocks| ==> BlockShaped(s.blocks[b]))
    && |s.fds| == MAX_OPEN_FILES
    && (forall i :: 0 <= i < |s.fds| ==> s.fds[i].head < Fat.BLOCK_NUM)
    && (forall i :: 0 <= i < |s.cwd| ==> s.cwd[i].block < Fat.BLOCK_NUM)
  }

  lemma SlotsShaped(s: State, b: nat)
    requires Shaped(s) && b < Fat.BLOCK_NUM
    ensures |Slots(s.blocks[b])| == SLOTS
    ensures forall i :: 0 <= i < SLOTS ==> Slots(s.blocks[b])[i].head < Fat.BLOCK_NUM
    ensures |Bytes(s.blocks[b])| == Fat.BLOCK_SIZE
  {
  }

  function CwdBlock(s: State): (b: nat)
    requires Shaped(s)
    ensures b < Fat.BLOCK_NUM
  {
    if |s.cwd| == 0 then Fat.ROOT_BLOCK else s.cwd[|s.cwd| - 1].block
  }

  function CwdSlots(s: State): (slots: seq<DirEntry>)
    requires Shaped(s)
    ensures |slots| == SLOTS
    ensures forall i :: 0 <= i < SLOTS ==> slots[i].head < Fat.BLOCK_NUM
  {
    SlotsShaped(s, CwdBlock(s));
    Slots(s.blocks[CwdBlock(s)])
  }

  /** The textual current directory: "/" at the root, else "/a/b". */
  function Path(cwd: seq<Frame>): string
  {
    if |cwd| == 0 then "/" else PathOf(cwd)
  }

  function PathOf(cwd: seq<Frame>): string
  {
    if |cwd| == 0 then "" else PathOf(cwd[..|cwd| - 1]) + "/" + cwd[|cwd| - 1].name
  }

  /** Writes slot `i` of the current directory. */
  function SetCwdSlot(s: State, i: nat, e: DirEntry): (s': State)
    requires Shaped(s) && i < SLOTS && e.head < Fat.BLOCK_NUM
    ensures Shaped(s')
    ensures CwdBlock(s') == CwdBlock(s)
    ensures CwdSlots(s') == CwdSlots(s)[i := e]
    ensures s'.fat == s.fat && s'.fds == s.fds && s'.cwd == s.cwd
    ensures forall b :: 0 <= b < Fat.BLOCK_NUM && b != CwdBlock(s) ==> s'.blocks[b] == s.blocks[b]
  {
    s.(blocks := s.blocks[CwdBlock(s) := DirBlock(CwdSlots(s)[i := e])])
  }

  /**
   * `my_format`: a zeroed disk whose table marks the root and table blocks
   * as one-block chains and every other block free, an empty root
   * directory as the current directory, and no open file.
   */
  function Format(): (s: State)
    ensures Shaped(s)
    ensures s.fat[Fat.ROOT_BLOCK] == Fat.Terminal && s.fat[Fat.FAT_BLOCK] == Fat.Terminal
    ensures forall b :: Fat.DATA_BLOCK <= b < Fat.BLOCK_NUM ==> s.fat[b].Free?
    ensures CwdBlock(s) == Fat.ROOT_BLOCK && Path(s.cwd) == "/"
    ensures forall i :: 0 <= i < SLOTS ==> !InUse(CwdSlots(s)[i])
    ensures forall i :: 0 <= i < MAX_OPEN_FILES ==> !s.fds[i].used
    ensures Fat.Acyclic(s.fat)
  {
    var fat := seq(Fat.BLOCK_NUM, b => if b < Fat.DATA_BLOCK then Fat.Terminal else Fat.Free);
    assert forall b :: 0 <= b < Fat.BLOCK_NUM ==> Fat.Hop(fat, b, Fat.BLOCK_NUM).None? by {
      forall b | 0 <= b < Fat.BLOCK_NUM
        ensures Fat.Hop(fat, b, Fat.BLOCK_NUM).None?
      {
        assert !fat[b].Next?;
      }
    }
    var blocks := seq(Fat.BLOCK_NUM, b => if b == Fat.ROOT_BLOCK then DirBlock(EmptySlots()) else DataBlock(ZeroBytes()));
    assert forall b :: 0 <= b < |blocks| ==> BlockShaped(blocks[b]) by {
      forall b | 0 <= b < |blocks|
        ensures BlockShaped(blocks[b])
      {
        if b == Fat.ROOT_BLOCK {
          assert blocks[b] == DirBlock(EmptySlots());
        } else {
          assert blocks[b] == DataBlock(ZeroBytes());
        }
      }
    }
    assert Slots(blocks[Fat.ROOT_BLOCK]) == EmptySlots();
    State(fat, blocks, seq(MAX_OPEN_FILES, _ => Unused), [])
  }

  /**
   * The shared body of `my_mkdir` and `my_create`. The checks run in the C
   * order: name of 28 bytes or more, name already present, no free slot,
   * no free block. On success the lowest free slot receives an entry with
   * size 0, read and write set, and the freshly allocated head block. When
   * that block is the current directory's own (its table entry was free),
   * `my_mkdir` wipes the directory before writing the slot.
   */
  function AddEntry(s: State, name: string, isDir: bool, now: int): (r: Step)
    requires Shaped(s)
    ensures Shaped(r.fs)
    ensures r.status == 0 || r.status == -1
    ensures r.status == 0 <==>
      && ByteLength(name) < MAX_FILENAME_LENGTH
      && Find(CwdSlots(s), name) == -1
      && FirstEmpty(CwdSlots(s)) != -1
      && !Fat.Full(s.fat)
    ensures r.status == -1 ==> r.fs == s
    ensures r.status == 0 ==>
      var b := Fat.Alloc(s.fat).0;
      var e := DirEntry(name, isDir, true, true, b, 0, now);
      && Fat.DATA_BLOCK <= b < Fat.BLOCK_NUM
      && s.fat[b].Free?
      && (forall j :: Fat.DATA_BLOCK <= j < b ==> !s.fat[j].Free?)
      && r.fs.fat == s.fat[b := Fat.Terminal]
      && r.fs.fds == s.fds
      && r.fs.cwd == s.cwd
      && (forall x :: 0 <= x < Fat.BLOCK_NUM && x != b && x != CwdBlock(s) ==> r.fs.blocks[x] == s.blocks[x])
      && (b != CwdBlock(s) ==>
            && (isDir ==> r.fs.blocks[b] == DirBlock(EmptySlots()))
            && (!isDir ==> r.fs.blocks[b] == s.blocks[b])
            && CwdSlots(r.fs) == CwdSlots(s)[FirstEmpty(CwdSlots(s)) := e])
      && (b == CwdBlock(s) ==>
            CwdSlots(r.fs) == (if isDir then EmptySlots() else CwdSlots(s))[FirstEmpty(CwdSlots(s)) := e])
  {
    if ByteLength(name) >= MAX_FILENAME_LENGTH then Step(-1, s)
    else if Find(CwdSlots(s), name) != -1 then Step(-1, s)
    else
      var i := FirstEmpty(CwdSlots(s));
      if i == -1 then Step(-1, s)
      else
        var b := Fat.Alloc(s.fat).0;
        if b == 0 then Step(-1, s)
        else Step(0, Install(s, name, isDir, now, i, b))
  }

  /** The new entry for `name` in slot `i`, owning the free block `b`, which
      becomes a one-block chain (an empty directory for `isDir`). */
  function Install(s: State, name: string, isDir: bool, now: int, i: nat, b: nat): (r: State)
    requires Shaped(s) && i < SLOTS && Fat.DATA_BLOCK <= b < Fat.BLOCK_NUM && s.fat[b].Free?
    ensures Shaped(r)
    ensures r.fat == s.fat[b := Fat.Terminal] && r.fds == s.fds && r.cwd == s.cwd
    ensures forall x :: 0 <= x < Fat.BLOCK_NUM && x != b && x != CwdBlock(s) ==> r.blocks[x] == s.blocks[x]
    ensures b != CwdBlock(s) ==>
      && (isDir ==> r.blocks[b] == DirBlock(EmptySlots()))
      && (!isDir ==> r.blocks[b] == s.blocks[b])
      && CwdSlots(r) == CwdSlots(s)[i := DirEntry(name, isDir, true, true, b, 0, now)]
    ensures b == CwdBlock(s) ==>
      CwdSlots(r) == (if isDir then EmptySlots() else CwdSlots(s))[i := DirEntry(name, isDir, true, true, b, 0, now)]
  {
    var s1 := s.(fat := s.fat[b := Fat.Terminal], blocks := if isDir then s.blocks[b := DirBlock(EmptySlots())] else s.blocks);
    assert CwdBlock(s1) == CwdBlock(s);
    assert CwdSlots(s1) == if isDir && b == CwdBlock(s) then EmptySlots() else CwdSlots(s);
    SetCwdSlot(s1, i, DirEntry(name, isDir, true, true, b, 0, now))
  }

  /**
   * `my_mkdir`: a new directory entry whose block was free and is now an
   * empty directory. Should that block be the current directory's own,
   * the directory is left holding the new entry alone.
   */
  function Mkdir(s: State, name: string, now: int): (r: Step)
    requires Shaped(s)
    ensures Shaped(r.fs)
    ensures r.status == 0 <==>
      ByteLength(name) < MAX_FILENAME_LENGTH && Find(CwdSlots(s), name) == -1
      && FirstEmpty(CwdSlots(s)) != -1 && !Fat.Full(s.fat)
    ensures r.status != 0 ==> r.status == -1 && r.fs == s
    ensures r.status == 0 ==>
      var i := FirstEmpty(CwdSlots(s));
      var e := CwdSlots(r.fs)[i];
      && e == DirEntry(name, true, true, true, e.head, 0, now)
      && s.fat[e.head].Free? && r.fs.fat[e.head].Terminal?
      && (e.head != CwdBlock(s) ==>
            IsEmptyDir(Slots(r.fs.blocks[e.head])) && CwdSlots(r.fs) == CwdSlots(s)[i := e])
      && (e.head == CwdBlock(s) ==> CwdSlots(r.fs) == EmptySlots()[i := e])
  {
    AddEntry(s, name, true, now)
  }

  /** `my_create`: a new empty file entry owning one fresh block, whose
      bytes are not cleared. */
  function Create(s: State, name: string, now: int): (r: Step)
    requires Shaped(s)
    ensures Shaped(r.fs)
    ensures r.status == 0 <==>
      ByteLength(name) < MAX_FILENAME_LENGTH && Find(CwdSlots(s), name) == -1
      && FirstEmpty(CwdSlots(s)) != -1 && !Fat.Full(s.fat)
    ensures r.status != 0 ==> r.status == -1 && r.fs == s
    ensures r.status == 0 ==>
      var i := FirstEmpty(CwdSlots(s));
      var e := CwdSlots(r.fs)[i];
      && e == DirEntry(name, false, true, true, e.head, 0, now)
      && s.fat[e.head].Free? && r.fs.fat[e.head].Terminal?
      && CwdSlots(r.fs) == CwdSlots(s)[i := e]
      && (e.head != CwdBlock(s) ==> r.fs.blocks[e.head] == s.blocks[e.head])
  {
    AddEntry(s, name, false, now)
  }

  /**
   * `my_rmdir`: refuses "." and "..", a missing name, a file and a
   * directory whose block still holds an entry; otherwise frees the one
   * directory block and blanks the slot.
   */
  function Rmdir(s: State, name: string): (r: Step)
    requires Shaped(s)
    ensures Shaped(r.fs)
    ensures r.status == 0 || r.status == -1
    ensures r.status == 0 <==>
      var i := Find(CwdSlots(s), name);
      && name != "." && name != ".."
      && i >= 0
      && CwdSlots(s)[i].isDir
      && IsEmptyDir(Slots(s.blocks[CwdSlots(s)[i].head]))
    ensures r.status == -1 ==> r.fs == s
    ensures r.status == 0 ==>
      var i := Find(CwdSlots(s), name);
      var head := CwdSlots(s)[i].head;
      && r.fs.fat[head].Free?
      && (forall x :: 0 <= x < Fat.BLOCK_NUM && x != head ==> r.fs.fat[x] == s.fat[x])
      && CwdSlots(r.fs) == CwdSlots(s)[i := Blank]
      && (forall x :: 0 <= x < Fat.BLOCK_NUM && x != CwdBlock(s) ==> r.fs.blocks[x] == s.blocks[x])
      && r.fs.fds == s.fds && r.fs.cwd == s.cwd
  {
    if name == "." || name == ".." then Step(-1, s)
    else
      var i := Find(CwdSlots(s), name);
      if i == -1 then Step(-1, s)
      else
        var e := CwdSlots(s)[i];
        if !e.isDir then Step(-1, s)
        else if !IsEmptyDir(Slots(s.blocks[e.head])) then Step(-1, s)
        else Step(0, SetCwdSlot(s.(fat := Fat.FreeBlock(s.fat, e.head)), i, Blank))
  }

  /** Whether a used descriptor carries this name (the busy check of `my_rm`). */
  predicate IsOpen(s: State, name: string)
  {
    exists k :: 0 <= k < |s.fds| && s.fds[k].used && s.fds[k].name == name
  }

  /**
   * `my_rm`: refuses a missing name, a directory, and a name that any used
   * descriptor carries; otherwise frees the file's chain and blanks the slot.
   */
  function Rm(s: State, name: string): (r: Step)
    requires Shaped(s)
    ensures Shaped(r.fs)
    ensures r.status == 0 || r.status == -1
    ensures r.status == 0 <==>
      var i := Find(CwdSlots(s), name);
      i >= 0 && !CwdSlots(s)[i].isDir && !IsOpen(s, name)
    ensures r.status == -1 ==> r.fs == s
    ensures r.status == 0 ==>
      var i := Find(CwdSlots(s), name);
      var head := CwdSlots(s)[i].head;
      && (Fat.Acyclic(s.fat) ==> forall x :: 0 <= x < Fat.BLOCK_NUM ==>
            r.fs.fat[x] == if x in Fat.Chain(s.fat, head, Fat.BLOCK_NUM) then Fat.Free else s.fat[x])
      && CwdSlots(r.fs) == CwdSlots(s)[i := Blank]
      && (forall x :: 0 <= x < Fat.BLOCK_NUM && x != CwdBlock(s) ==> r.fs.blocks[x] == s.blocks[x])
      && r.fs.fds == s.fds && r.fs.cwd == s.cwd
  {
    var i := Find(CwdSlots(s), name);
    if i == -1 then Step(-1, s)
    else
      var e := CwdSlots(s)[i];
      if e.isDir then Step(-1, s)
      else if IsOpen(s, name) then Step(-1, s)
      else
        Fat.FreeChainSpec(s.fat, e.head);
        Step(0, SetCwdSlot(s.(fat := Fat.FreeChain(s.fat, e.head, Fat.BLOCK_NUM)), i, Blank))
  }

  /**
   * `my_cd` with the parent kept on a stack of entered directories: "."
   * stays, ".." leaves the innermost directory (a no-op at the root), "/"
   * returns to the root, and any other name must be a directory entry of
   * the current directory.
   */
  function Cd(s: State, name: string): (r: Step)
    requires Shaped(s)
    ensures Shaped(r.fs)
    ensures r.status == 0 || r.status == -1
    ensures r.status == -1 ==> r.fs == s
    ensures r.fs.fat == s.fat && r.fs.blocks == s.blocks && r.fs.fds == s.fds
    ensures name == "." ==> r == Step(0, s)
    ensures name == ".." ==> r.status == 0 && |r.fs.cwd| == if |s.cwd| == 0 then 0 else |s.cwd| - 1
    ensures name == ".." ==> r.fs.cwd <= s.cwd
    ensures name == "/" ==> r.status == 0 && CwdBlock(r.fs) == Fat.ROOT_BLOCK && Path(r.fs.cwd) == "/"
    ensures name != "." && name != ".." && name != "/" ==>
      var i := Find(CwdSlots(s), name);
      && (r.status == 0 <==> i >= 0 && CwdSlots(s)[i].isDir)
      && (r.status == 0 ==>
            && CwdBlock(r.fs) == CwdSlots(s)[i].head
            && |r.fs.cwd| == |s.cwd| + 1
            && r.fs.cwd[..|s.cwd|] == s.cwd
            && Path(r.fs.cwd) == (if |s.cwd| == 0 then "/" else Path(s.cwd) + "/") + name)
  {
    if name == "." then Step(0, s)
    else if name == ".." then
      (if |s.cwd| == 0 then Step(0, s) else Step(0, Leave(s)))
    else if name == "/" then Step(0, WithCwd(s, []))
    else
      var i := Find(CwdSlots(s), name);
      if i == -1 then Step(-1, s)
      else
        var e := CwdSlots(s)[i];
        if !e.isDir then Step(-1, s)
        else
          Step(0, Enter(s, name, e.head))
  }

  /** The state with another stack of entered directories. */
  function WithCwd(s: State, cwd: seq<Frame>): (s': State)
    requires Shaped(s) && forall i :: 0 <= i < |cwd| ==> cwd[i].block < Fat.BLOCK_NUM
    ensures Shaped(s') && s'.cwd == cwd
    ensures s'.fat == s.fat && s'.blocks == s.blocks && s'.fds == s.fds
  {
    s.(cwd := cwd)
  }

  /** Leaves the innermost entered directory for its parent. */
  function Leave(s: State): (s': State)
    requires Shaped(s) && |s.cwd| > 0
    ensures Shaped(s') && s'.fat == s.fat && s'.blocks == s.blocks && s'.fds == s.fds
    ensures |s'.cwd| == |s.cwd| - 1 && s'.cwd <= s.cwd
  {
    WithCwd(s, s.cwd[..|s.cwd| - 1])
  }

  /** Enters the directory `name` whose block is `head`: one frame more on
      the stack, and the name added to the textual path. */
  function Enter(s: State, name: string, head: nat): (s': State)
    requires Shaped(s) && head < Fat.BLOCK_NUM
    ensures Shaped(s') && s'.fat == s.fat && s'.blocks == s.blocks && s'.fds == s.fds
    ensures CwdBlock(s') == head
    ensures |s'.cwd| == |s.cwd| + 1 && s'.cwd[..|s.cwd|] == s.cwd
    ensures Path(s'.cwd) == (if |s.cwd| == 0 then "/" else Path(s.cwd) + "/") + name
  {
    PathPush(s.cwd, Frame(name, head));
    WithCwd(s, s.cwd + [Frame(name, head)])
  }

  /** Entering a directory adds its name to the textual path. */
  lemma PathPush(cwd: seq<Frame>, f: Frame)
    ensures Path(cwd + [f]) == (if |cwd| == 0 then "/" else Path(cwd) + "/") + f.name
  {
    var c := cwd + [f];
    assert c[..|c| - 1] == cwd && c[|c| - 1] == f;
    assert PathOf(c) == PathOf(cwd) + "/" + f.name;
    if |cwd| == 0 {
      assert PathOf(cwd) + "/" == "/";
    }
  }

  /** `find_empty_entry`: the lowest unused descriptor, or -1. */
  function FindFreeFd(fds: seq<OpenFile>): (r: int)
    ensures -1 <= r < |fds|
    ensures r >= 0 ==> !fds[r].used && forall j :: 0 <= j < r ==> fds[j].used
    ensures r == -1 <==> forall j :: 0 <= j < |fds| ==> fds[j].used
    decreases |fds|
  {
    if |fds| == 0 then -1
    else
      var k := FindFreeFd(fds[..|fds| - 1]);
      if k >= 0 then k
      else if !fds[|fds| - 1].used then |fds| - 1
      else -1
  }

  /** The mode checks of `my_open`: only 'r' and 'w' consult the entry's bits. */
  predicate Permitted(e: DirEntry, mode: char)
  {
    && !(mode == 'r' && !e.canRead)
    && !(mode == 'w' && !e.canWrite)
  }

  /**
   * `my_open`, with the descriptor's size snapshot taken after truncation.
   * Fails with no change on a missing name, a directory, a permission the
   * mode 'r' or 'w' needs, or a full table. Otherwise takes the lowest
   * unused descriptor; mode 'w' also truncates the file to its head block
   * and zeroes the entry's size, and mode 'a' starts at the end of the file.
   */
  function Open(s: State, name: string, mode: char): (r: Step)
    requires Shaped(s)
    ensures Shaped(r.fs)
    ensures -1 <= r.status < MAX_OPEN_FILES
    ensures r.status >= 0 <==>
      var i := Find(CwdSlots(s), name);
      && i >= 0
      && !CwdSlots(s)[i].isDir
      && Permitted(CwdSlots(s)[i], mode)
      && FindFreeFd(s.fds) != -1
    ensures r.status == -1 ==> r.fs == s
    ensures r.status >= 0 ==>
      var i := Find(CwdSlots(s), name);
      var e := CwdSlots(s)[i];
      && !s.fds[r.status].used
      && (forall j :: 0 <= j < r.status ==> s.fds[j].used)
      && r.fs.fds == s.fds[r.status := OpenFile(
           true, name, e.head,
           if mode == 'w' then 0 else e.size,
           if mode == 'a' then e.size else 0,
           mode == 'r' || mode == 'a',
           mode == 'w' || mode == 'a')]
      && r.fs.cwd == s.cwd
      && (mode != 'w' ==> r.fs.fat == s.fat && r.fs.blocks == s.blocks)
      && (mode == 'w' ==>
            && r.fs.fat == Fat.Truncate(s.fat, e.head)
            && r.fs.blocks[e.head] == DataBlock(ZeroBytes())
            && (forall x :: 0 <= x < Fat.BLOCK_NUM && x != e.head && x != CwdBlock(s) ==> r.fs.blocks[x] == s.blocks[x])
            && (e.head != CwdBlock(s) ==> CwdSlots(r.fs) == CwdSlots(s)[i := e.(size := 0)]))
  {
    var i := Find(CwdSlots(s), name);
    if i == -1 then Step(-1, s)
    else
      var e := CwdSlots(s)[i];
      if e.isDir then Step(-1, s)
      else if !Permitted(e, mode) then Step(-1, s)
      else
        var fd := FindFreeFd(s.fds);
        if fd == -1 then Step(-1, s)
        else
          var f := OpenFile(
            true, name, e.head,
            if mode == 'w' then 0 else e.size,
            if mode == 'a' then e.size else 0,
            mode == 'r' || mode == 'a',
            mode == 'w' || mode == 'a');
          Step(fd, WithFd(if mode == 'w' then Emptied(s, i) else s, fd, f))
  }

  /** The state with descriptor `fd` replaced by `f`. */
  function WithFd(s: State, fd: nat, f: OpenFile): (s': State)
    requires Shaped(s) && fd < MAX_OPEN_FILES && f.head < Fat.BLOCK_NUM
    ensures Shaped(s') && s'.fds == s.fds[fd := f]
    ensures s'.fat == s.fat && s'.blocks == s.blocks && s'.cwd == s.cwd
  {
    s.(fds := s.fds[fd := f])
  }

  /** The file of slot `i` cut back to its zeroed head block, with size 0
      in its entry; nothing else changes. */
  function Emptied(s: State, i: nat): (r: State)
    requires Shaped(s) && i < SLOTS
    ensures Shaped(r) && r.fds == s.fds && r.cwd == s.cwd
    ensures r.fat == Fat.Truncate(s.fat, CwdSlots(s)[i].head)
    ensures r.blocks[CwdSlots(s)[i].head] == DataBlock(ZeroBytes())
    ensures forall x :: 0 <= x < Fat.BLOCK_NUM && x != CwdSlots(s)[i].head && x != CwdBlock(s) ==> r.blocks[x] == s.blocks[x]
    ensures CwdSlots(s)[i].head != CwdBlock(s) ==> CwdSlots(r) == CwdSlots(s)[i := CwdSlots(s)[i].(size := 0)]
  {
    var e := CwdSlots(s)[i];
    var s2 := SetCwdSlot(s, i, e.(size := 0));
    s2.(fat := Fat.Truncate(s2.fat, e.head), blocks := s2.blocks[e.head := DataBlock(ZeroBytes())])
  }

  /** `my_close`: releases a used descriptor; -1 with no change otherwise. */
  function Close(s: State, fd: int): (r: Step)
    requires Shaped(s)
    ensures Shaped(r.fs)
    ensures r.status == 0 <==> 0 <= fd < MAX_OPEN_FILES && s.fds[fd].used
    ensures r.status != 0 ==> r.status == -1 && r.fs == s
    ensures r.status == 0 ==>
      && !r.fs.fds[fd].used
      && (forall j :: 0 <= j < MAX_OPEN_FILES && j != fd ==> r.fs.fds[j] == s.fds[j])
      && r.fs.fat == s.fat && r.fs.blocks == s.blocks && r.fs.cwd == s.cwd
  {
    if fd < 0 || fd >= MAX_OPEN_FILES || !s.fds[fd].used then Step(-1, s)
    else Step(0, s.(fds := s.fds[fd := s.fds[fd].(used := false)]))
  }

  /** The saved disk image: the table and every block, byte for byte. */
  datatype Image = Image(fat: Fat.Table, blocks: seq<Block>)

  ghost predicate ImageShaped(img: Image)
  {
    && Fat.Shaped(img.fat)
    && |img.blocks| == Fat.BLOCK_NUM
    && forall b :: 0 <= b < |img.blocks| ==> BlockShaped(img.blocks[b])
  }

  function Save(s: State): Image
  {
    Image(s.fat, s.blocks)
  }

  /**
   * `load_from_file`: a missing or short image (None) gives a freshly
   * formatted disk; a full image is taken as it is, with the root as the
   * current directory and every descriptor released.
   */
  function Load(s: State, image: Option<Image>): (r: State)
    requires Shaped(s)
    requires image.Some? ==> ImageShaped(image.value)
    ensures Shaped(r)
    ensures image.None? ==> r == Format()
    ensures image.Some? ==>
      && r.fat == image.value.fat && r.blocks == image.value.blocks
      && CwdBlock(r) == Fat.ROOT_BLOCK && Path(r.cwd) == "/"
      && forall i :: 0 <= i < MAX_OPEN_FILES ==> !r.fds[i].used
  {
    match image
    case None => Format()
    case Some(img) =>
      State(img.fat, img.blocks, seq(MAX_OPEN_FILES, i requires 0 <= i < MAX_OPEN_FILES => s.fds[i].(used := false)), [])
  }
}