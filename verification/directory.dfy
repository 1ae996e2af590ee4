/**
 * Directory blocks: each directory is one block holding a fixed array of
 * directory entries. A slot whose name is empty is free.
 */
module Directory {

  /** Names must take fewer bytes than this (the C array keeps a terminator). */
  const MAX_FILENAME_LENGTH: nat := 28

  /** The bytes UTF-8 spends on the character `c`. */
  function Utf8Width(c: char): (n: nat)
    ensures 1 <= n <= 4
    ensures n == 1 <==> (c as int) < 0x80
  {
    if (c as int) < 0x80 then 1
    else if (c as int) < 0x800 then 2
    else if (c as int) < 0x1_0000 then 3
    else 4
  }

  /**
   * `strlen` of a name as the terminal hands it over, UTF-8 encoded: the
   * count of bytes, which is what the C's length checks compare, not the
   * count of characters.
   */
  function ByteLength(name: string): (n: nat)
    ensures |name| <= n <= 4 * |name|
  {
    if |name| == 0 then 0 else ByteLength(name[..|name| - 1]) + Utf8Width(name[|name| - 1])
  }

  /** A name has as many bytes as characters exactly when it is ASCII. */
  lemma {:induction false} ByteLengthAscii(name: string)
    ensures ByteLength(name) == |name| <==> forall i :: 0 <= i < |name| ==> (name[i] as int) < 0x80
  {
    if |name| > 0 {
      var pre := name[..|name| - 1];
      ByteLengthAscii(pre);
      assert forall i :: 0 <= i < |pre| ==> pre[i] == name[i];
    }
  }

  /** A name of characters from U+0800 to U+FFFF, which covers the common
      Chinese characters, takes three bytes per character. */
  lemma {:induction false} ByteLengthWide(name: string)
    requires forall i :: 0 <= i < |name| ==> 0x800 <= (name[i] as int) < 0x1_0000
    ensures ByteLength(name) == 3 * |name|
  {
    if |name| > 0 {
      var pre := name[..|name| - 1];
      assert forall i :: 0 <= i < |pre| ==> pre[i] == name[i];
      ByteLengthWide(pre);
    }
  }

  /**
   * Entries per directory block: BLOCK_SIZE / sizeof(DirEntry). On an LP64
   * build the entry is a 28-byte name, a 1-byte attribute field, a 2-byte
   * head block, a 4-byte size and an 8-byte time stamp, padded to 48 bytes,
   * so 1024 / 48 = 21 slots.
   */
  const SLOTS: nat := 21

  datatype DirEntry = DirEntry(
    name: string,
    isDir: bool,
    canRead: bool,
    canWrite: bool,
    head: nat,
    size: nat,
    created: int)

  /** An all-zero slot, as left by `memset`. */
  const Blank: DirEntry := DirEntry("", false, false, false, 0, 0, 0)

  /** A slot holds an entry when its name does not start with the terminator. */
  predicate InUse(e: DirEntry)
  {
    |e.name| > 0
  }

  predicate Matches(e: DirEntry, name: string)
  {
    InUse(e) && e.name == name
  }

  function EmptySlots(): (slots: seq<DirEntry>)
    ensures |slots| == SLOTS
    ensures forall i :: 0 <= i < SLOTS ==> slots[i] == Blank
  {
    seq(SLOTS, _ => Blank)
  }

  predicate IsEmptyDir(slots: seq<DirEntry>)
  {
    forall i :: 0 <= i < |slots| ==> !InUse(slots[i])
  }

  function FindFrom(slots: seq<DirEntry>, name: string, i: nat): (r: int)
    requires i <= |slots|
    ensures r == -1 || i <= r < |slots|
    ensures r >= 0 ==> Matches(slots[r], name)
    ensures r >= 0 ==> forall j :: i <= j < r ==> !Matches(slots[j], name)
    ensures r == -1 ==> forall j :: i <= j < |slots| ==> !Matches(slots[j], name)
    decreases |slots| - i
  {
    if i == |slots| then -1
    else if Matches(slots[i], name) then i
    else FindFrom(slots, name, i + 1)
  }

  /**
   * `find_file_or_dir`: the lowest slot holding an entry of that name, or -1.
   * The empty name is never found, since its slots count as free.
   */
  function Find(slots: seq<DirEntry>, name: string): (r: int)
    ensures -1 <= r < |slots|
    ensures r >= 0 ==> Matches(slots[r], name)
    ensures r >= 0 ==> forall j :: 0 <= j < r ==> !Matches(slots[j], name)
    ensures r == -1 <==> forall j :: 0 <= j < |slots| ==> !Matches(slots[j], name)
  {
    FindFrom(slots, name, 0)
  }

  function FirstEmptyFrom(slots: seq<DirEntry>, i: nat): (r: int)
    requires i <= |slots|
    ensures r == -1 || i <= r < |slots|
    ensures r >= 0 ==> !InUse(slots[r]) && forall j :: i <= j < r ==> InUse(slots[j])
    ensures r == -1 ==> forall j :: i <= j < |slots| ==> InUse(slots[j])
    decreases |slots| - i
  {
    if i == |slots| then -1
    else if !InUse(slots[i]) then i
    else FirstEmptyFrom(slots, i + 1)
  }

  /** The free-slot scan of `my_mkdir` and `my_create`: the lowest free slot, or -1. */
  function FirstEmpty(slots: seq<DirEntry>): (r: int)
    ensures -1 <= r < |slots|
    ensures r >= 0 ==> !InUse(slots[r]) && forall j :: 0 <= j < r ==> InUse(slots[j])
    ensures r == -1 <==> forall j :: 0 <= j < |slots| ==> InUse(slots[j])
  {
    FirstEmptyFrom(slots, 0)
  }
}
