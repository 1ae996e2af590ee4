/**
 * The file system as a state machine over the operations the command loop
 * dispatches to, and the table invariant every operation keeps: no chain
 * of the allocation table runs in a circle.
 */
module Machine {
  import opened Wrappers
  import Fat
  import opened FileSystem
  import opened FileIo
  import Writing

  /** One call into the file system, with the arguments the command loop
      passes; `now` is the creation time stamp. */
  datatype Op =
    | FormatOp
    | MkdirOp(name: string, now: int)
    | CreateOp(name: string, now: int)
    | RmdirOp(name: string)
    | RmOp(name: string)
    | CdOp(name: string)
    | OpenOp(name: string, mode: char)
    | CloseOp(fd: int)
    | WriteOp(fd: int, data: seq<byte>)
    | ReadOp(fd: int, length: int)
    | LoadOp(image: Option<Image>)

  /** A load reads back an image of the typed shape the state has. */
  ghost predicate Loadable(op: Op)
  {
    op.LoadOp? && op.image.Some? ==> ImageShaped(op.image.value)
  }

  /** The status and state after one operation. */
  ghost function Apply(s: State, op: Op): (r: Step)
    requires Shaped(s) && Loadable(op)
    ensures Shaped(r.fs)
  {
    match op
    case FormatOp => Step(0, Format())
    case MkdirOp(name, now) => Mkdir(s, name, now)
    case CreateOp(name, now) => Create(s, name, now)
    case RmdirOp(name) => Rmdir(s, name)
    case RmOp(name) => Rm(s, name)
    case CdOp(name) => Cd(s, name)
    case OpenOp(name, mode) => Open(s, name, mode)
    case CloseOp(fd) => Close(s, fd)
    case WriteOp(fd, data) => Write(s, fd, data)
    case ReadOp(fd, length) => var r := Read(s, fd, length); Step(r.status, r.fs)
    case LoadOp(image) => Step(0, Load(s, image))
  }

  /** The image a load reads back has a loop-free table. */
  ghost predicate LoadsAcyclic(op: Op)
  {
    op.LoadOp? && op.image.Some? ==> Fat.Acyclic(op.image.value.fat)
  }

  /** `my_mkdir` and `my_create` allocate one block or change nothing. */
  lemma AddEntryKeepsAcyclic(s: State, name: string, isDir: bool, now: int)
    requires Shaped(s) && Fat.Acyclic(s.fat)
    ensures Fat.Acyclic(AddEntry(s, name, isDir, now).fs.fat)
  {
    Fat.AllocAcyclic(s.fat);
  }

  /** `my_rmdir` and `my_rm` only clear links. */
  lemma RemoveKeepsAcyclic(s: State, name: string)
    requires Shaped(s) && Fat.Acyclic(s.fat)
    ensures Fat.Acyclic(Rmdir(s, name).fs.fat)
    ensures Fat.Acyclic(Rm(s, name).fs.fat)
  {
    Fat.AcyclicFewerLinks(s.fat, Rmdir(s, name).fs.fat);
    var i := Directory.Find(CwdSlots(s), name);
    if Rm(s, name).status == 0 {
      Fat.FreeChainAcyclic(s.fat, CwdSlots(s)[i].head, Fat.BLOCK_NUM);
    }
  }

  /** `my_open` in mode 'w' truncates; the other modes leave the table. */
  lemma OpenKeepsAcyclic(s: State, name: string, mode: char)
    requires Shaped(s) && Fat.Acyclic(s.fat)
    ensures Fat.Acyclic(Open(s, name, mode).fs.fat)
  {
    var r := Open(s, name, mode);
    if r.status >= 0 && mode == 'w' {
      var i := Directory.Find(CwdSlots(s), name);
      Fat.TruncateAcyclic(s.fat, CwdSlots(s)[i].head);
    }
  }

  /** Every operation keeps the allocation table loop-free, a load by
      reading back a loop-free image. */
  lemma ApplyKeepsAcyclic(s: State, op: Op)
    requires Shaped(s) && Fat.Acyclic(s.fat) && Loadable(op) && LoadsAcyclic(op)
    ensures Fat.Acyclic(Apply(s, op).fs.fat)
  {
    match op
    case FormatOp =>
    case MkdirOp(name, now) => AddEntryKeepsAcyclic(s, name, true, now);
    case CreateOp(name, now) => AddEntryKeepsAcyclic(s, name, false, now);
    case RmdirOp(name) => RemoveKeepsAcyclic(s, name);
    case RmOp(name) => RemoveKeepsAcyclic(s, name);
    case CdOp(name) =>
    case OpenOp(name, mode) => OpenKeepsAcyclic(s, name, mode);
    case CloseOp(fd) =>
    case WriteOp(fd, data) => Writing.WriteKeepsAcyclic(s, fd, data);
    case ReadOp(fd, length) =>
    case LoadOp(image) =>
  }

  /** The state after a run of operations. */
  ghost function Run(s: State, ops: seq<Op>): (r: State)
    requires Shaped(s) && forall k :: 0 <= k < |ops| ==> Loadable(ops[k])
    ensures Shaped(r)
    decreases |ops|
  {
    if |ops| == 0 then s else Run(Apply(s, ops[0]).fs, ops[1..])
  }

  /** A run of operations from a loop-free table, loading only loop-free
      images, ends with a loop-free table. */
  lemma {:induction false} RunKeepsAcyclic(s: State, ops: seq<Op>)
    requires Shaped(s) && Fat.Acyclic(s.fat)
    requires forall k :: 0 <= k < |ops| ==> Loadable(ops[k]) && LoadsAcyclic(ops[k])
    ensures Fat.Acyclic(Run(s, ops).fat)
    decreases |ops|
  {
    if |ops| > 0 {
      ApplyKeepsAcyclic(s, ops[0]);
      RunKeepsAcyclic(Apply(s, ops[0]).fs, ops[1..]);
    }
  }
}
