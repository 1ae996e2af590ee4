# A FAT file system on a virtual disk, and a small shell's line parser

This project models two programs of an operating-systems course repository
in Dafny and proves properties of the models.

The first is the file system of `Lab5/douzza_FileSystem.c`. A 1 MiB virtual
disk is cut into 1024 blocks of 1024 bytes. Block 0 is the root directory
and block 1 the file allocation table (FAT), one 16-bit entry per block:
0 for a free block, `0xFFFF` for the last block of a chain, and otherwise
the number of the next block. A directory is one block holding 21 fixed
slots; each slot holds a name, the is-directory, read and write flags, the
head block of the entry's chain, a size and a creation time. A table of 16
open-file descriptors records a name, a head block, a size, a cursor and
the read/write rights. The model covers `my_format`, `alloc_block`,
`free_block`, `find_file_or_dir`, `find_empty_entry`, `my_mkdir`,
`my_rmdir`, `my_cd`, `my_create`, `my_open`, `my_close`, `my_write`,
`my_read`, `my_rm`, and the state reset of `load_from_file`.

The second is the line handling of `Lab3/echo_shell/echo_shell.c`. It
covers the newline strip of `read_command`, the `strtok` split of
`parse_command` on spaces and tabs, which keeps at most 10 words, and the
built-in dispatch of `execute_command`: `exit`, `cd` with or without an
argument, or anything else to run.

Modules:

- `Wrappers`: the option type.
- `Fat`: FAT entries and their 16-bit encoding, walks along chains,
  acyclicity, and the allocation, free, chain-free and truncate steps.
- `Directory`: directory slots and the two slot scans.
- `FileSystem`: the state, with the disk as typed blocks, the descriptor
  table and the stack of entered directories, and the directory
  operations, open, close, format, save and load.
- `FileIo`: the seek, write loop, write, read loop and read.
- `Content`: a file's bytes as the concatenation of its chain's blocks, and
  the read proved against that view.
- `Seeking`, `Growth`, `Writes`, `Writing`: the write proved against that
  view. `Growth` holds the predicates for a chain that grew and for bytes
  placed along a chain.
- `Scenarios`: properties that span several operations.
- `Machine`: the state machine of all operations and the acyclicity
  invariant.
- `Findings`: three defects of the C, modelled as written and as corrected.
- `Shell`: the echo shell.

The model follows the C's branches in the C's order and uses the C's
constants and status codes. Where the C's behaviour is evidently not what
was meant, the corrected behaviour is the model, and the as-written
behaviour sits next to it under "Findings".

## Model

| member | source | states |
|---|---|---|
| Fat.Encode | Lab5/douzza_FileSystem.c:20-28 | A table entry is stored as a 16-bit value: 0 exactly for a free block, `0xFFFF` exactly for the end of a chain. |
| Fat.DecodeEncode | Lab5/douzza_FileSystem.c:20-28 | Reading back a stored entry gives the same entry, for every link to a block other than 0 and `0xFFFF`. |
| Fat.EncodeDecode | Lab5/douzza_FileSystem.c:20-28 | Every 16-bit value read from the table stores back to the same value. |
| Fat.Alloc | Lab5/douzza_FileSystem.c:699-707 | `alloc_block` returns 0 and changes nothing exactly when no data block is free. Otherwise it returns the lowest free data block, marks only that block as the end of a chain, and every data block below it was in use. |
| Fat.AllocCount | Lab5/douzza_FileSystem.c:699-707 | A successful allocation leaves one free block fewer; a failed one leaves the count as it was. |
| Fat.AllocAcyclic | Lab5/douzza_FileSystem.c:699-707 | An allocation never creates a loop in the table. |
| Fat.FreeBlock | Lab5/douzza_FileSystem.c:710-712 | `free_block` makes that one block free and leaves every other entry as it was. |
| Fat.FreeChainSpec | Lab5/douzza_FileSystem.c:664-672 | On a loop-free table, the freeing walk of `my_rm` frees exactly the blocks of the file's chain and leaves every other entry as it was. |
| Fat.FreeChainAcyclic | Lab5/douzza_FileSystem.c:664-672 | The freeing walk never creates a loop. |
| Fat.TruncateSpec | Lab5/douzza_FileSystem.c:428-447 | On a loop-free table, truncation in mode 'w' ends the chain at its head, frees every other block of the chain, and changes no entry off the chain. |
| Fat.TruncateAcyclic | Lab5/douzza_FileSystem.c:428-447 | Truncation never creates a loop. |
| Fat.Append | Lab5/douzza_FileSystem.c:527-542 | The growth step of the write loop fails with no change exactly when the disk is full. Otherwise it links the chain's last block to a fresh, previously free block, which becomes the new end. |
| Fat.AppendAcyclic | Lab5/douzza_FileSystem.c:527-542 | Growing a chain never creates a loop. |
| Directory.Find | Lab5/douzza_FileSystem.c:715-727 | `find_file_or_dir` returns the lowest slot holding an entry of that name, and -1 exactly when no slot does. A free slot never matches, so the empty name is never found. |
| Directory.FirstEmpty | Lab5/douzza_FileSystem.c:150-158 | The slot scan of `my_mkdir` and `my_create` returns the lowest free slot, and -1 exactly when every slot is in use. |
| FileSystem.FindFreeFd | Lab5/douzza_FileSystem.c:730-737 | `find_empty_entry` returns the lowest unused descriptor, and -1 exactly when all 16 are in use. |
| FileSystem.Format | Lab5/douzza_FileSystem.c:90-134 | After `my_format`, blocks 0 and 1 are one-block chains, every data block is free, the table has no loop, the root is the current directory with path "/" and no entries, and no descriptor is in use. |
| Scenarios.FormatFree | Lab5/douzza_FileSystem.c:111-118 | A formatted disk has 1022 free blocks, so it is not full. |
| Directory.ByteLength | Lab5/douzza_FileSystem.c:137-141 | The length the name checks compare is the name's count of UTF-8 bytes, at least its count of characters and at most four times it. |
| Directory.ByteLengthAscii | Lab5/douzza_FileSystem.c:336-340 | A name's byte count equals its character count exactly when every character is ASCII. |
| FileSystem.AddEntry | Lab5/douzza_FileSystem.c:336-382 | The checks run in the C's order: name of 28 bytes or more, name present, directory full, disk full. Success happens exactly when all four pass. On success the lowest free slot receives the new entry with size 0, read and write set, and the freshly allocated lowest free block as its head. Only that block's table entry changes. Both cases of the new block are covered: when it is not the current directory's block, the directory gains just the new slot; when it is, a new directory's empty slots overwrite the directory first. On failure nothing changes. |
| FileSystem.Mkdir | Lab5/douzza_FileSystem.c:137-186 | `my_mkdir` succeeds under the same four checks, the name measured in bytes. The new slot holds a directory of size 0 whose block was free, is now the end of a chain, and holds no entries; the rest of the directory is as before. When that block is the current directory's own, the directory is wiped and holds only the new slot. |
| FileSystem.Create | Lab5/douzza_FileSystem.c:336-382 | `my_create` succeeds under the same four checks, the name measured in bytes. The new slot holds exactly the named file with size 0, read and write set and the creation time, owning one block that was free and is now the end of a chain. The rest of the directory is as before, and the new block's bytes are not touched. |
| Scenarios.WideNameRefused | Lab5/douzza_FileSystem.c:336-340 | A name of ten or more characters from U+0800 to U+FFFF, such as ten Chinese characters, takes 30 or more bytes, so `my_create` and `my_mkdir` refuse it and change nothing. |
| FileSystem.Rmdir | Lab5/douzza_FileSystem.c:189-228 | `my_rmdir` succeeds exactly on a name other than "." and ".." that names a directory whose block has no entries. It then frees only that block and blanks only that slot; on failure nothing changes. |
| FileSystem.Rm | Lab5/douzza_FileSystem.c:640-680 | `my_rm` succeeds exactly on a file that no used descriptor names. It then frees exactly the file's chain and blanks only its slot; on failure nothing changes. |
| FileSystem.Cd | Lab5/douzza_FileSystem.c:259-333 | "." changes nothing. ".." goes up one level and stays at the root. "/" returns to the root. Any other name succeeds exactly on a directory entry of the current directory, entering its block and adding the name to the path. The disk and the descriptors never change. |
| Scenarios.CdThenUp | Lab5/douzza_FileSystem.c:259-333 | Entering a directory and then going to ".." returns exactly to the state before. |
| FileSystem.Open | Lab5/douzza_FileSystem.c:385-457 | `my_open` succeeds exactly on an existing file whose rights allow the mode while a descriptor is free. It takes the lowest free descriptor, with the rights the mode grants, cursor 0 (the size for 'a'), and the entry's size (0 for 'w'). Mode 'w' also truncates the chain, zeroes the head block and sets the entry's size to 0. Other modes leave the disk alone. |
| FileSystem.Close | Lab5/douzza_FileSystem.c:460-471 | `my_close` succeeds exactly on a used descriptor and releases only that one; on failure nothing changes. |
| FileSystem.Load | Lab5/douzza_FileSystem.c:755-797 | A missing or short image gives a freshly formatted disk. A full image is taken as it is, with the root as the current directory and every descriptor released. |
| Scenarios.SaveThenLoad | Lab5/douzza_FileSystem.c:740-797 | An image saved from a loop-free disk loads back, whatever the loader's state, with a loop-free table and every file's bytes as they were. |
| FileIo.ReadLength | Lab5/douzza_FileSystem.c:588-591 | The length `my_read` goes on with, below the size: never past the size; a length that keeps cursor plus length within 0 and the size is kept; a sum past the size, or below 0 because the `int` sum is compared with the `unsigned` size, is clipped to the rest of the file. It is positive exactly when the length is positive or the sum is negative. |
| FileIo.Read | Lab5/douzza_FileSystem.c:568-637 | `my_read` fails exactly on a bad or unreadable descriptor, or on a cursor below the size whose block the chain does not reach. At or past the size it returns 0 with no change. Otherwise the count read does not take the cursor past the size and moves only this descriptor's cursor. The count is at most the length asked when that is positive. A negative length reads nothing and changes nothing, unless it takes the sum below 0; then the count is bounded by the rest of the file. |
| Content.ReadFile | Lab5/douzza_FileSystem.c:579-631 | A read below the recorded size fails exactly when the cursor lies past the file's chain. Otherwise it returns the file's own bytes from the cursor on, as many as `ReadLength` settles on, clipped at the chain's end. |
| Content.ReadNegative | Lab5/douzza_FileSystem.c:588-591 | A negative length that takes cursor plus length below 0, such as -1 at cursor 0, reads the file's bytes from the cursor to the recorded size, as far as the chain holds them, and at least one byte. |
| Content.ReadNegativeSmall | Lab5/douzza_FileSystem.c:588-606 | A negative length that keeps cursor plus length at 0 or above reads nothing. |
| FileIo.Write | Lab5/douzza_FileSystem.c:474-565 | `my_write` fails exactly on a bad or unwritable descriptor, changing nothing. Otherwise it writes at most the bytes given, moves this descriptor's cursor by the count, grows its size to the cursor when passed, and leaves the other descriptors and the stack of entered directories alone. |
| FileIo.UpdateSize | Lab5/douzza_FileSystem.c:545-558 | When the cursor passed the recorded size, the first entry of the file's name in the current directory takes the new size and nothing else in it changes; otherwise, or when no entry has that name, no block changes. Only the current directory's block can change. |
| Seeking.SeekChain | Lab5/douzza_FileSystem.c:489-506 | The seek to the cursor's block grows the file's chain by free blocks only, into a whole chain of a loop-free table. It lands on the block with the cursor's index in that chain, or fails only on a full disk. |
| Writes.WriteLoopChain | Lab5/douzza_FileSystem.c:508-544 | The copy loop grows the chain by free blocks only. The bytes it copies land in order at the starting offset of the grown chain, and it stops short only on a full disk. |
| Writing.WriteKeepsAcyclic | Lab5/douzza_FileSystem.c:474-565 | A write never creates a loop in the table. |
| Writing.WriteFile | Lab5/douzza_FileSystem.c:474-565 | On a file whose chain is whole, the chain stays whole and the bytes written sit in the file at the old cursor. The file's bytes before the cursor are kept, and a count short of the data means the disk is full. The old chain is a prefix of the new one, every block added was free, and no table entry or block off the new chain changes, except the current directory's block. |
| Writing.WriteEntry | Lab5/douzza_FileSystem.c:545-558 | When the current directory's block is in use and off the file's chain, a write that takes the cursor past the recorded size sets the size of the file's entry in the current directory to the new cursor and changes no other slot. Otherwise the directory's slots stay as they were. |
| Scenarios.WriteThenRead | Lab5/douzza_FileSystem.c:385-637 | Bytes written at cursor 0 into an empty file, after the descriptor is closed and the file opened again in mode 'r', read back unchanged as far as the write got. The size the reader sees comes from the entry the write updated. |
| Scenarios.CreateThenRm | Lab5/douzza_FileSystem.c:640-680 | Removing a file just created leaves the table exactly as before, with the same free count, and the directory as before except that the slot it used is blank. For the empty name the removal fails and the created block stays lost. |
| Machine.ApplyKeepsAcyclic | Lab5/douzza_FileSystem.c:823-909 | Every operation the command loop can call keeps the table free of loops. A load does so when the image it reads back has a loop-free table. |
| Machine.RunKeepsAcyclic | Lab5/douzza_FileSystem.c:808-909 | Any sequence of operations from a loop-free table, loading only loop-free images, ends with a loop-free table. |
| Findings.SeekAsWritten | Lab5/douzza_FileSystem.c:489-506 | The seek loop as written: past the chain's end it allocates a block but never links it to the chain, and stores the block's number at `fat[0xFFFF]`. Every block other than block 128 is unchanged. |
| Findings.StoreWord | Lab5/douzza_FileSystem.c:502 | The store of a 16-bit table entry into the disk's bytes: two bytes, low byte first, at the given offset of a data block, and nothing else. |
| Findings.SeekPastEnd | Lab5/douzza_FileSystem.c:491-505 | For a one-block file with the cursor at 1024, the as-written seek lands on a block outside the file's chain and writes that block's number over bytes 1022 and 1023 of block 128. The corrected seek lands inside the chain. |
| Findings.LastSlash | Lab5/douzza_FileSystem.c:274 | `strrchr(current_dir, '/')`: the position of a '/' with no '/' after it, or -1 when there is none. |
| Findings.CdUpOn | Lab5/douzza_FileSystem.c:266-302 | `my_cd("..")` as written on the path string and block the C keeps. It leaves "/" alone. It cuts the path at its last '/' and keeps the block, except that a cut at the leading '/' gives the root in both, and a '/' ending the path means a second cut with the block reset to the root's. The result is always a rooted prefix of the path, shorter unless the path is "/". |
| Findings.CdUpAsWritten | Lab5/douzza_FileSystem.c:266-302 | The same on a model state's path and block. The block is either kept or the root's, and the path is a prefix of the old one. |
| Findings.CdUpPlain | Lab5/douzza_FileSystem.c:266-302 | When the innermost directory's name has no '/', the as-written `..` shows the corrected path. At the root or one level down it agrees with the corrected `Cd` in block too; two or more levels down it keeps the current block. |
| Findings.CdUpInsideName | Lab5/douzza_FileSystem.c:274-284 | After entering a directory named "x/y" from the root, the path reads "/x/y". The as-written `..` cuts inside the name to "/x" and keeps the entered directory's block, while the corrected `Cd` returns to the root. |
| Findings.CdUpTrailingSlash | Lab5/douzza_FileSystem.c:285-296 | After entering "/a" and then a directory named "x/", the as-written `..` takes the trailing-'/' branch: the path becomes "/a" but the block becomes the root's. The corrected `Cd` returns to a's block. |
| Findings.CdUpStaysDeep | Lab5/douzza_FileSystem.c:279-298 | Two levels down, in a directory whose name has no '/', ".." as written shows the parent's path but keeps the inner directory's block. The corrected `Cd` moves to the parent's block. |
| Findings.OpenAsWritten | Lab5/douzza_FileSystem.c:419-448 | `my_open` as written: the descriptor's size is copied from the entry before mode 'w' truncates the file. |
| Findings.StaleEntry | Lab5/douzza_FileSystem.c:419-448 | With the as-written `my_open` in mode 'w', a write of fewer bytes than the old size leaves the file's entry at size 0. |
| Findings.OpenStaleSize | Lab5/douzza_FileSystem.c:419-448 | After a 'w' open of a non-empty file, the as-written descriptor keeps the old size while the entry says 0, and a shorter write leaves that stale size. In the corrected model both say 0, and the write records exactly the count written. |
| Shell.CString | Lab3/echo_shell/echo_shell.c:47-48 | The string `strlen` measures is the longest prefix of the buffer with no NUL, and it ends at a NUL or at the buffer's end. |
| Shell.StripNewline | Lab3/echo_shell/echo_shell.c:47-51 | Only the C string up to the first NUL counts. A trailing newline of it is removed and nothing else: the result plus "\n" is that string when it ended in a newline, and it is unchanged otherwise. |
| Shell.StripNul | Lab3/echo_shell/echo_shell.c:47-51 | A buffer with a NUL inside gives back what comes before the NUL, and a newline after the NUL is never seen. |
| Shell.StripTyped | Lab3/echo_shell/echo_shell.c:47-51 | A line typed with its newline gives back exactly the line. |
| Shell.NextTokenWord | Lab3/echo_shell/echo_shell.c:65-68 | Each `strtok` word is non-empty and has no space or tab, and what follows is strictly shorter than the input. |
| Shell.NextTokenNone | Lab3/echo_shell/echo_shell.c:65-66 | `strtok` finds no word exactly when the rest is only spaces and tabs. |
| Shell.TokensAreWords | Lab3/echo_shell/echo_shell.c:65-69 | Every word of a line is non-empty and has no space or tab. |
| Shell.TokensBlank | Lab3/echo_shell/echo_shell.c:65-73 | A line has no words exactly when it holds only spaces and tabs. |
| Shell.TokensKeepText | Lab3/echo_shell/echo_shell.c:65-69 | The words in order, joined, are the line with its spaces and tabs removed: no character is lost or reordered. |
| Shell.TokensUnwords | Lab3/echo_shell/echo_shell.c:65-69 | Splitting words joined by single spaces gives back exactly those words. |
| Shell.ParseCommand | Lab3/echo_shell/echo_shell.c:61-73 | `parse_command` keeps at most 10 words: the line's first 10 words in order, or all of them when there are fewer. |
| Shell.Execute | Lab3/echo_shell/echo_shell.c:86-97 | The first word "exit" ends the shell. "cd" alone is an error, and "cd" with a word changes to that word. Any other first word runs the whole word list. |
| Shell.HandleLine | Lab3/echo_shell/echo_shell.c:129-137 | A round of the main loop does nothing exactly on a blank line. Otherwise it dispatches the first 10 words of the stripped line. |
| Shell.CdLine | Lab3/echo_shell/echo_shell.c:88-95 | The line "cd dir" asks to change to `dir`. |

## Left out

- Output is left out: `printf`, `my_ls`, the prompts and the error messages.
- Saving to the host file and the host file itself are left out. `my_exitsys` and `save_to_file` are reduced to taking the image. `load_from_file` takes the image as a parameter, None when the file is missing or short.
- `time(NULL)` is left out; the creation time is a parameter.
- `malloc` failure and `exit` are left out.
- The command parser of the file system's `main` (`sscanf`, `atoi`, the multi-line input of `write`) is left out. `Machine` takes the operations directly.
- The shell's `fork`, `execvp`, `waitpid` and `chdir` are left out. `Shell.Execute` returns which of these would run.
- The prompt and `getcwd` are left out.
- `fgets`' 79-character limit is left out. `Shell.HandleLine` takes the characters `fgets` stored.
- Shell.StripNewline: `read_command` reads `buffer[length - 1]` even for an empty C string, which happens when the line starts with a NUL byte. The model strips nothing there instead.
- The table occupies blocks 1 and 2. The C stores 1024 two-byte entries from block 1 on, yet block 2 is the first data block. The model keeps the table apart from the blocks, so writing block 2 does not corrupt it.
- Walks that reach a free entry stop. On a damaged table the C would follow entry 0 to block 0. The model's seek, write loop, read, truncate and removal walks stop there instead; on a table where every chain ends in an end marker, the two agree.
- No invariant ties the directory entries to the table: heads owned by one entry only, and sizes within chains. Properties needing one take it as a precondition, as `Writing.WriteFile` does with a whole chain.
- The disk is typed: a directory block holds slots and a data block holds bytes. Reading a directory block's bytes gives zeros, and a data block's slots are blank; the C would reinterpret the raw bytes.
- Sizes and cursors are unbounded integers. The C uses 32-bit fields, which cannot overflow on a 1 MiB disk. The one place where their signedness matters, `my_read`'s comparison of the `int` sum of cursor and length with the `unsigned` size, is modelled by `FileIo.ReadLength`; a sum past the `int` range, which the C leaves undefined and which wraps to a negative value in practice, lands in the same clip branch.
- The read command of the file system's `main` allocates `size + 1` bytes for a length `size` parsed with `atoi`. For -1 that is an empty buffer, into which `my_read` then copies the rest of the file; the buffer is outside the model, which returns the bytes read as a sequence.
- FileIo.Write: after the seek fails on a full disk, the model writes no byte and returns 0. The C goes on to write at block `0xFFFF`, outside the disk.
- FileSystem.Open: the mode 'a' and unknown modes pass the permission check as in the C. The 'a' mode grants read and write, and an unknown mode grants neither.
- FileSystem.Rm: a file is busy when any used descriptor carries its name, whichever directory it was opened in, as in the C.
- FileIo.UpdateSize: the new size goes to the first entry of that name in the current directory, as in the C, even when the file was opened elsewhere.
- FileSystem.Cd: the path is an unbounded string. The C keeps it in `char current_dir[256]` and appends to it with `strcat` without a length check, so a path longer than 255 bytes overflows the array; the model does not model that overflow.
- Directory.ByteLength: names are taken as UTF-8, the encoding a terminal hands the program. Characters are Dafny `char`s, so a name holding lone surrogates is measured as if they were encoded as 3 bytes.
- Writing.WriteEntry, Scenarios.WriteThenRead, Findings.StaleEntry: the directory-entry claims assume the current directory's block is in use and off the written file's chain. No invariant ties directories to chains, so a damaged disk could let the write's bytes overwrite the directory.
- FileSystem.Create: the empty name passes every check and fills a slot that still counts as free, so its block is lost. This is kept as written; `Scenarios.CreateThenRm` states the lost block.

## Findings

| source | as written | input that shows it | evidently intended | confidence | as-written member | corrected member |
|---|---|---|---|---|---|---|
| Lab5/douzza_FileSystem.c:491-505 | The seek first steps to the value of the current entry. At the end of the chain that value is `0xFFFF`, so the new block's number is stored at `fat[0xFFFF]`, disk byte 1024 + 2 * 0xFFFF, which is bytes 1022 and 1023 of block 128, and the chain is never linked to the new block. | A one-block file, cursor 1024, a disk with a free block: `my_write` writes into a block the file's chain does not reach, and corrupts two bytes of whatever file owns block 128. | Link the fresh block after the chain's last block and write into it. | not executed | Findings.SeekAsWritten, Findings.SeekPastEnd | Seeking.SeekChain, Writing.WriteFile |
| Lab5/douzza_FileSystem.c:279-298 | `my_cd("..")` works on the path string alone. Two or more levels down it cuts the last name off the path but keeps `current_dir_block`. A name holding '/', which `my_mkdir` accepts, is cut inside, and a name ending in '/' sends the block to the root's. | `/a/b` with distinct blocks: after `..` the path shows `/a`, but entries are read from and created in `b`'s block. | Return to the parent directory's block. | not executed | Findings.CdUpOn, Findings.CdUpAsWritten, Findings.CdUpStaysDeep, Findings.CdUpInsideName, Findings.CdUpTrailingSlash | FileSystem.Cd, Scenarios.CdThenUp |
| Lab5/douzza_FileSystem.c:419-448 | `my_open` copies the entry's size into the descriptor before mode 'w' truncates the file and zeroes the entry's size. | A 5-byte file opened with 'w' then written with 2 bytes: the descriptor still records 5, and the entry stays at 0, since the cursor never passes the stale size. | The descriptor records size 0 after truncation. | not executed | Findings.OpenAsWritten, Findings.OpenStaleSize, Findings.StaleEntry | FileSystem.Open |
