/**
 * The block allocation table of the virtual disk.
 *
 * The C program keeps one `unsigned short` per block: 0 means free, 0xFFFF
 * ends a chain, any other value is the index of the next block of the chain.
 * Here the table is its own sequence of tri-state entries, kept apart from the
 * disk bytes it overlaps in the C program.
 */
module Fat {
  import opened Wrappers

  const BLOCK_SIZE: nat := 1024
  const DISK_SIZE: nat := 1024 * 1024
  const BLOCK_NUM: nat := DISK_SIZE / BLOCK_SIZE
  const ROOT_BLOCK: nat := 0
  const FAT_BLOCK: nat := 1
  const DATA_BLOCK: nat := 2
  const EOF_BLOCK: nat := 0xFFFF

  datatype Entry = Free | Terminal | Next(next: nat)

  type Table = seq<Entry>

  /** The C encoding of an entry as an `unsigned short`. */
  function Encode(e: Entry): (v: nat)
    requires e.Next? ==> 0 < e.next < EOF_BLOCK
    ensures v < 0x1_0000
    ensures v == 0 <==> e.Free?
    ensures v == EOF_BLOCK <==> e.Terminal?
  {
    match e
    case Free => 0
    case Terminal => EOF_BLOCK
    case Next(n) => n
  }

  function Decode(v: nat): Entry
  {
    if v == 0 then Free else if v == EOF_BLOCK then Terminal else Next(v)
  }

  lemma DecodeEncode(e: Entry)
    requires e.Next? ==> 0 < e.next < EOF_BLOCK
    ensures Decode(Encode(e)) == e
  {
  }

  lemma EncodeDecode(v: nat)
    requires v < 0x1_0000
    ensures Encode(Decode(v)) == v
  {
  }

  /** A table of BLOCK_NUM entries whose links stay inside the disk. */
  ghost predicate Shaped(fat: Table)
  {
    && |fat| == BLOCK_NUM
    && forall b :: 0 <= b < |fat| && fat[b].Next? ==> fat[b].next < BLOCK_NUM
  }

  /** The block reached from `b` after `k` hops along `Next` links, if any. */
  function Hop(fat: Table, b: nat, k: nat): (r: Option<nat>)
    requires Shaped(fat) && b < BLOCK_NUM
    ensures r.Some? ==> r.value < BLOCK_NUM
    ensures k == 0 ==> r == Some(b)
    decreases k
  {
    if k == 0 then Some(b)
    else match fat[b]
      case Next(n) => Hop(fat, n, k - 1)
      case _ => None
  }

  /** No chain loops: every walk of BLOCK_NUM hops runs off a non-link entry. */
  ghost predicate Acyclic(fat: Table)
  {
    && Shaped(fat)
    && forall b :: 0 <= b < BLOCK_NUM ==> Hop(fat, b, BLOCK_NUM).None?
  }

  /** One hop more is one step from where `k` hops end. */
  lemma {:induction false} HopSucc(fat: Table, b: nat, k: nat)
    requires Shaped(fat) && b < BLOCK_NUM
    ensures Hop(fat, b, k + 1) ==
      match Hop(fat, b, k)
      case Some(x) => (if fat[x].Next? then Some(fat[x].next) else None)
      case None => None
    decreases k
  {
    if k > 0 && fat[b].Next? {
      HopSucc(fat, fat[b].next, k - 1);
    }
  }

  lemma {:induction false} HopAdd(fat: Table, b: nat, i: nat, j: nat)
    requires Shaped(fat) && b < BLOCK_NUM
    ensures Hop(fat, b, i + j) ==
      match Hop(fat, b, i)
      case Some(x) => Hop(fat, x, j)
      case None => None
    decreases i
  {
    if i > 0 && fat[b].Next? {
      HopAdd(fat, fat[b].next, i - 1, j);
    }
  }

  lemma HopPrefix(fat: Table, b: nat, i: nat, k: nat)
    requires Shaped(fat) && b < BLOCK_NUM
    requires i <= k && Hop(fat, b, k).Some?
    ensures Hop(fat, b, i).Some?
  {
    HopAdd(fat, b, i, k - i);
  }

  lemma {:induction false} HopLoop(fat: Table, x: nat, d: nat, m: nat)
    requires Shaped(fat) && x < BLOCK_NUM
    requires Hop(fat, x, d) == Some(x)
    ensures Hop(fat, x, m * d) == Some(x)
    decreases m
  {
    if m > 0 {
      HopLoop(fat, x, d, m - 1);
      HopAdd(fat, x, (m - 1) * d, d);
      assert m * d == (m - 1) * d + d;
    }
  }

  lemma MulGrows(n: nat, d: nat)
    requires d >= 1
    ensures n * d >= n
  {
  }

  /** Along an acyclic table no walk of one hop or more comes back. */
  lemma NoReturn(fat: Table, x: nat, d: nat)
    requires Acyclic(fat) && x < BLOCK_NUM && d > 0
    ensures Hop(fat, x, d) != Some(x)
  {
    if Hop(fat, x, d) == Some(x) {
      HopLoop(fat, x, d, BLOCK_NUM);
      MulGrows(BLOCK_NUM, d);
      HopPrefix(fat, x, BLOCK_NUM, BLOCK_NUM * d);
      assert false;
    }
  }

  /** Along an acyclic table a chain never revisits a block. */
  lemma HopDistinct(fat: Table, b: nat, i: nat, j: nat)
    requires Acyclic(fat) && b < BLOCK_NUM
    requires i < j && Hop(fat, b, i).Some?
    ensures Hop(fat, b, j) != Hop(fat, b, i)
  {
    HopAdd(fat, b, i, j - i);
    NoReturn(fat, Hop(fat, b, i).value, j - i);
  }

  /** A sequence of distinct naturals below `n` has at most `n` elements. */
  lemma {:induction false} Pigeonhole(xs: seq<nat>, n: nat)
    requires forall i :: 0 <= i < |xs| ==> xs[i] < n
    requires forall i, j :: 0 <= i < j < |xs| ==> xs[i] != xs[j]
    ensures |xs| <= n
    decreases n
  {
    if |xs| > 0 {
      assert xs[0] < n;
      var ys := seq(|xs|, i requires 0 <= i < |xs| => if xs[i] == n - 1 then xs[|xs| - 1] else xs[i]);
      var k := |xs| - 1;
      if exists i :: 0 <= i < |xs| && xs[i] == n - 1 {
        var i :| 0 <= i < |xs| && xs[i] == n - 1;
        // Move the last element into the place of n - 1 and drop the last.
        var zs := ys[..k];
        assert forall a :: 0 <= a < |zs| ==> zs[a] < n - 1 by {
          forall a | 0 <= a < |zs|
            ensures zs[a] < n - 1
          {
            if a == i {
              assert xs[k] != xs[i];
            } else {
              assert xs[a] != xs[i];
            }
          }
        }
        assert forall a, c :: 0 <= a < c < |zs| ==> zs[a] != zs[c] by {
          forall a, c | 0 <= a < c < |zs|
            ensures zs[a] != zs[c]
          {
            if a == i {
              assert zs[a] == xs[k];
            } else if c == i {
              assert zs[c] == xs[k];
            }
          }
        }
        Pigeonhole(zs, n - 1);
      } else {
        assert forall a :: 0 <= a < |xs| ==> xs[a] < n - 1;
        Pigeonhole(xs, n - 1);
      }
    }
  }

  /** Clearing links (to Free or Terminal) can only shorten walks. */
  lemma {:induction false} HopFewerLinks(fat: Table, fat': Table, b: nat, k: nat)
    requires Shaped(fat) && Shaped(fat') && b < BLOCK_NUM
    requires forall x :: 0 <= x < BLOCK_NUM && fat'[x].Next? ==> fat[x] == fat'[x]
    requires Hop(fat', b, k).Some?
    ensures Hop(fat, b, k) == Hop(fat', b, k)
    decreases k
  {
    if k > 0 {
      HopFewerLinks(fat, fat', fat'[b].next, k - 1);
    }
  }

  lemma AcyclicFewerLinks(fat: Table, fat': Table)
    requires Acyclic(fat) && Shaped(fat')
    requires forall x :: 0 <= x < BLOCK_NUM && fat'[x].Next? ==> fat[x] == fat'[x]
    ensures Acyclic(fat')
  {
    forall b | 0 <= b < BLOCK_NUM
      ensures Hop(fat', b, BLOCK_NUM).None?
    {
      if Hop(fat', b, BLOCK_NUM).Some? {
        HopFewerLinks(fat, fat', b, BLOCK_NUM);
      }
    }
  }

  /** A walk in the table with `last` linked to `nb` either follows the old
      table or has just stepped over the new link. */
  lemma {:induction false} HopAfterLink(fat: Table, last: nat, nb: nat, b: nat, k: nat)
    requires Shaped(fat) && last < BLOCK_NUM && nb < BLOCK_NUM && b < BLOCK_NUM
    requires fat[last].Terminal? && fat[nb].Terminal? && last != nb
    requires Hop(fat[last := Next(nb)], b, k).Some?
    ensures Hop(fat, b, k) == Hop(fat[last := Next(nb)], b, k)
         || (k >= 1 && Hop(fat, b, k - 1) == Some(last) && Hop(fat[last := Next(nb)], b, k) == Some(nb))
    decreases k
  {
    var f' := fat[last := Next(nb)];
    if k > 0 {
      HopSucc(fat, b, k - 1);
      HopSucc(f', b, k - 1);
      HopPrefix(f', b, k - 1, k);
      HopAfterLink(fat, last, nb, b, k - 1);
    }
  }

  /** Linking a Terminal block to a fresh Terminal block creates no loop. */
  lemma AcyclicLink(fat: Table, last: nat, nb: nat)
    requires Acyclic(fat) && last < BLOCK_NUM && nb < BLOCK_NUM
    requires fat[last].Terminal? && fat[nb].Terminal? && last != nb
    ensures Acyclic(fat[last := Next(nb)])
  {
    var f' := fat[last := Next(nb)];
    forall b | 0 <= b < BLOCK_NUM
      ensures Hop(f', b, BLOCK_NUM).None?
    {
      if Hop(f', b, BLOCK_NUM).Some? {
        HopAfterLink(fat, last, nb, b, BLOCK_NUM);
        assert Hop(fat, b, BLOCK_NUM - 1) == Some(last);
        WalkTooLong(fat, b, nb);
        assert false;
      }
    }
  }

  /** A walk of BLOCK_NUM - 1 hops that ends on a Terminal block has visited
      every block, so it ends on any given Terminal block. */
  lemma WalkTooLong(fat: Table, b: nat, nb: nat)
    requires Acyclic(fat) && b < BLOCK_NUM && nb < BLOCK_NUM
    requires Hop(fat, b, BLOCK_NUM - 1).Some?
    requires fat[Hop(fat, b, BLOCK_NUM - 1).value].Terminal?
    requires fat[nb].Terminal?
    ensures Hop(fat, b, BLOCK_NUM - 1) == Some(nb)
  {
    if Hop(fat, b, BLOCK_NUM - 1) == Some(nb) {
      return;
    }
    forall i | 0 <= i < BLOCK_NUM
      ensures Hop(fat, b, i).Some?
    {
      HopPrefix(fat, b, i, BLOCK_NUM - 1);
    }
    var xs := seq(BLOCK_NUM, i requires 0 <= i < BLOCK_NUM => Hop(fat, b, i).value) + [nb];
    forall i, j | 0 <= i < j < |xs|
      ensures xs[i] != xs[j]
    {
      if j < BLOCK_NUM {
        HopDistinct(fat, b, i, j);
      } else if i < BLOCK_NUM - 1 {
        // Block xs[i] links onwards, so it is not the Terminal block nb.
        HopPrefix(fat, b, i + 1, BLOCK_NUM - 1);
        HopSucc(fat, b, i);
      }
    }
    Pigeonhole(xs, BLOCK_NUM);
    assert false;
  }

  /** Lowest free index in [from, BLOCK_NUM), or BLOCK_NUM when there is none. */
  function FirstFree(fat: Table, from: nat): (i: nat)
    requires |fat| == BLOCK_NUM && from <= BLOCK_NUM
    ensures from <= i <= BLOCK_NUM
    ensures i < BLOCK_NUM ==> fat[i].Free?
    ensures forall j :: from <= j < i ==> !fat[j].Free?
    decreases BLOCK_NUM - from
  {
    if from == BLOCK_NUM then BLOCK_NUM
    else if fat[from].Free? then from
    else FirstFree(fat, from + 1)
  }

  /** No data block is free. */
  ghost predicate Full(fat: Table)
    requires |fat| == BLOCK_NUM
  {
    forall i :: DATA_BLOCK <= i < BLOCK_NUM ==> !fat[i].Free?
  }

  /**
   * `alloc_block`: scans the data blocks in ascending order, marks the first
   * free one as the end of a chain and returns it; returns 0 (the root
   * block, never a data block) with nothing changed when the disk is full.
   */
  function Alloc(fat: Table): (r: (nat, Table))
    requires Shaped(fat)
    ensures Shaped(r.1)
    ensures r.0 == 0 <==> Full(fat)
    ensures r.0 == 0 ==> r.1 == fat
    ensures r.0 != 0 ==>
      && DATA_BLOCK <= r.0 < BLOCK_NUM
      && fat[r.0].Free?
      && (forall j :: DATA_BLOCK <= j < r.0 ==> !fat[j].Free?)
      && r.1 == fat[r.0 := Terminal]
  {
    var i := FirstFree(fat, DATA_BLOCK);
    if i == BLOCK_NUM then (0, fat) else (i, fat[i := Terminal])
  }

  /** `free_block`: marks one block free. */
  function FreeBlock(fat: Table, b: nat): (fat': Table)
    requires Shaped(fat) && b < BLOCK_NUM
    ensures Shaped(fat')
    ensures fat'[b].Free?
    ensures forall x :: 0 <= x < BLOCK_NUM && x != b ==> fat'[x] == fat[x]
  {
    fat[b := Free]
  }

  /** The blocks visited by walking from `b` with at most `fuel` hops. */
  function Chain(fat: Table, b: nat, fuel: nat): (c: seq<nat>)
    requires Shaped(fat) && b < BLOCK_NUM
    ensures 1 <= |c| <= fuel + 1 && c[0] == b
    ensures forall i :: 0 <= i < |c| ==> c[i] < BLOCK_NUM
    decreases fuel
  {
    match fat[b]
    case Next(n) => if fuel == 0 then [b] else [b] + Chain(fat, n, fuel - 1)
    case _ => [b]
  }

  /**
   * The walk of `my_rm`: frees the current block, then moves on to the block
   * it linked to, stopping after freeing a block that was not a link.
   */
  function FreeChain(fat: Table, b: nat, fuel: nat): (fat': Table)
    requires Shaped(fat) && b < BLOCK_NUM
    ensures Shaped(fat')
    ensures forall x :: 0 <= x < BLOCK_NUM && fat'[x].Next? ==> fat[x] == fat'[x]
    decreases fuel
  {
    var f1 := fat[b := Free];
    match fat[b]
    case Next(n) => if fuel == 0 then f1 else FreeChain(f1, n, fuel - 1)
    case _ => f1
  }

  /** The walk of `my_open` in mode 'w': frees every block after the head and
      ends the chain at the head. */
  function Truncate(fat: Table, head: nat): (fat': Table)
    requires Shaped(fat) && head < BLOCK_NUM
    ensures Shaped(fat')
    ensures fat'[head].Terminal?
    ensures forall x :: 0 <= x < BLOCK_NUM && fat'[x].Next? ==> fat[x] == fat'[x]
  {
    var f1 := match fat[head]
      case Next(n) => FreeChain(fat, n, BLOCK_NUM - 1)
      case _ => fat;
    f1[head := Terminal]
  }

  /** The i-th block of a chain is where i hops lead. */
  lemma {:induction false} ChainHop(fat: Table, b: nat, fuel: nat, i: nat)
    requires Shaped(fat) && b < BLOCK_NUM && i < |Chain(fat, b, fuel)|
    ensures Hop(fat, b, i) == Some(Chain(fat, b, fuel)[i])
    decreases fuel
  {
    if i > 0 {
      ChainHop(fat, fat[b].next, fuel - 1, i - 1);
    }
  }

  lemma ChainDistinct(fat: Table, b: nat, fuel: nat)
    requires Acyclic(fat) && b < BLOCK_NUM
    ensures forall i, j :: 0 <= i < j < |Chain(fat, b, fuel)| ==>
      Chain(fat, b, fuel)[i] != Chain(fat, b, fuel)[j]
  {
    var c := Chain(fat, b, fuel);
    forall i, j | 0 <= i < j < |c|
      ensures c[i] != c[j]
    {
      ChainHop(fat, b, fuel, i);
      ChainHop(fat, b, fuel, j);
      HopDistinct(fat, b, i, j);
    }
  }

  /** On an acyclic table, BLOCK_NUM hops of fuel reach the end of every chain. */
  lemma ChainComplete(fat: Table, b: nat)
    requires Acyclic(fat) && b < BLOCK_NUM
    ensures !fat[Chain(fat, b, BLOCK_NUM)[|Chain(fat, b, BLOCK_NUM)| - 1]].Next?
  {
    var c := Chain(fat, b, BLOCK_NUM);
    var k := |c| - 1;
    if fat[c[k]].Next? {
      ChainEndsEarly(fat, b, BLOCK_NUM);
      assert k == BLOCK_NUM;
      ChainHop(fat, b, BLOCK_NUM, k);
      assert false;
    }
  }

  /** A chain stops before its fuel runs out only at a non-link entry. */
  lemma {:induction false} ChainEndsEarly(fat: Table, b: nat, fuel: nat)
    requires Shaped(fat) && b < BLOCK_NUM
    ensures |Chain(fat, b, fuel)| <= fuel ==>
      !fat[Chain(fat, b, fuel)[|Chain(fat, b, fuel)| - 1]].Next?
    ensures fat[Chain(fat, b, fuel)[|Chain(fat, b, fuel)| - 1]].Next? ==>
      |Chain(fat, b, fuel)| == fuel + 1
    decreases fuel
  {
    if fat[b].Next? && fuel > 0 {
      ChainEndsEarly(fat, fat[b].next, fuel - 1);
    }
  }

  /** A chain reads only the entries of its own blocks. */
  lemma {:induction false} ChainFrame(fat: Table, fat': Table, b: nat, fuel: nat)
    requires Shaped(fat) && Shaped(fat') && b < BLOCK_NUM
    requires forall i :: 0 <= i < |Chain(fat, b, fuel)| ==> fat'[Chain(fat, b, fuel)[i]] == fat[Chain(fat, b, fuel)[i]]
    ensures Chain(fat', b, fuel) == Chain(fat, b, fuel)
    decreases fuel
  {
    var c := Chain(fat, b, fuel);
    assert fat'[b] == fat[b] by { assert c[0] == b; }
    if fat[b].Next? && fuel > 0 {
      var c1 := Chain(fat, fat[b].next, fuel - 1);
      assert forall i :: 0 <= i < |c1| ==> c1[i] == c[i + 1];
      ChainFrame(fat, fat', fat[b].next, fuel - 1);
    }
  }

  /** The walk of `my_rm` frees exactly the blocks of the chain and nothing else. */
  lemma {:induction false} FreeChainFrees(fat: Table, b: nat, fuel: nat)
    requires Shaped(fat) && b < BLOCK_NUM
    requires forall i, j :: 0 <= i < j < |Chain(fat, b, fuel)| ==>
      Chain(fat, b, fuel)[i] != Chain(fat, b, fuel)[j]
    ensures forall x :: 0 <= x < BLOCK_NUM ==>
      FreeChain(fat, b, fuel)[x] == if x in Chain(fat, b, fuel) then Free else fat[x]
    decreases fuel
  {
    var c := Chain(fat, b, fuel);
    var f1 := fat[b := Free];
    if fat[b].Next? && fuel > 0 {
      var n := fat[b].next;
      var c1 := Chain(fat, n, fuel - 1);
      assert c == [b] + c1;
      assert b !in c1 by {
        forall i | 0 <= i < |c1|
          ensures c1[i] != b
        {
          assert c1[i] == c[i + 1] && c[0] == b;
        }
      }
      ChainFrame(fat, f1, n, fuel - 1);
      assert forall i, j :: 0 <= i < j < |c1| ==> c1[i] != c1[j] by {
        forall i, j | 0 <= i < j < |c1|
          ensures c1[i] != c1[j]
        {
          assert c1[i] == c[i + 1] && c1[j] == c[j + 1];
        }
      }
      FreeChainFrees(f1, n, fuel - 1);
    }
  }

  /** Every block of an acyclic chain, read from the walk of `my_rm`. */
  lemma FreeChainSpec(fat: Table, b: nat)
    requires Shaped(fat) && b < BLOCK_NUM
    ensures Acyclic(fat) ==> forall x :: 0 <= x < BLOCK_NUM ==>
      FreeChain(fat, b, BLOCK_NUM)[x] == if x in Chain(fat, b, BLOCK_NUM) then Free else fat[x]
  {
    if Acyclic(fat) {
      ChainDistinct(fat, b, BLOCK_NUM);
      FreeChainFrees(fat, b, BLOCK_NUM);
    }
  }

  /** Truncation keeps the head, as a one-block chain, and frees the rest of
      its chain. */
  lemma TruncateSpec(fat: Table, head: nat)
    requires Shaped(fat) && head < BLOCK_NUM
    ensures Acyclic(fat) ==> forall x :: 0 <= x < BLOCK_NUM ==>
      Truncate(fat, head)[x] ==
        if x == head then Terminal
        else if x in Chain(fat, head, BLOCK_NUM) then Free
        else fat[x]
  {
    if Acyclic(fat) && fat[head].Next? {
      TruncateLinked(fat, head);
    }
  }

  /** Truncation of a chain longer than its head. */
  lemma TruncateLinked(fat: Table, head: nat)
    requires Acyclic(fat) && head < BLOCK_NUM && fat[head].Next?
    ensures forall x :: 0 <= x < BLOCK_NUM ==>
      Truncate(fat, head)[x] ==
        if x == head then Terminal
        else if x in Chain(fat, head, BLOCK_NUM) then Free
        else fat[x]
  {
    var c := Chain(fat, head, BLOCK_NUM);
    ChainDistinct(fat, head, BLOCK_NUM);
    var n := fat[head].next;
    var c1 := Chain(fat, n, BLOCK_NUM - 1);
    assert c == [head] + c1;
    assert forall i, j :: 0 <= i < j < |c1| ==> c1[i] != c1[j] by {
      forall i, j | 0 <= i < j < |c1|
        ensures c1[i] != c1[j]
      {
        assert c1[i] == c[i + 1] && c1[j] == c[j + 1];
      }
    }
    FreeChainFrees(fat, n, BLOCK_NUM - 1);
  }

  /** Number of free entries. */
  function FreeCount(fat: Table): nat
  {
    if |fat| == 0 then 0
    else (if fat[|fat| - 1].Free? then 1 else 0) + FreeCount(fat[..|fat| - 1])
  }

  lemma {:induction false} FreeCountUpdate(fat: Table, i: nat, e: Entry)
    requires i < |fat|
    ensures FreeCount(fat[i := e]) + (if fat[i].Free? then 1 else 0)
         == FreeCount(fat) + (if e.Free? then 1 else 0)
    decreases |fat|
  {
    var k := |fat| - 1;
    if i < k {
      assert fat[i := e][..k] == fat[..k][i := e];
      FreeCountUpdate(fat[..k], i, e);
    } else {
      assert fat[i := e][..k] == fat[..k];
    }
  }

  /** A successful allocation uses up exactly one free block. */
  lemma AllocCount(fat: Table)
    requires Shaped(fat)
    ensures Alloc(fat).0 != 0 ==> FreeCount(Alloc(fat).1) + 1 == FreeCount(fat)
    ensures Alloc(fat).0 == 0 ==> FreeCount(Alloc(fat).1) == FreeCount(fat)
  {
    var (b, f) := Alloc(fat);
    if b != 0 {
      FreeCountUpdate(fat, b, Terminal);
    }
  }

  /** Every operation on the table below keeps it loop-free. */
  lemma AllocAcyclic(fat: Table)
    requires Acyclic(fat)
    ensures Acyclic(Alloc(fat).1)
  {
    AcyclicFewerLinks(fat, Alloc(fat).1);
  }

  lemma FreeChainAcyclic(fat: Table, b: nat, fuel: nat)
    requires Acyclic(fat) && b < BLOCK_NUM
    ensures Acyclic(FreeChain(fat, b, fuel))
  {
    AcyclicFewerLinks(fat, FreeChain(fat, b, fuel));
  }

  lemma TruncateAcyclic(fat: Table, head: nat)
    requires Acyclic(fat) && head < BLOCK_NUM
    ensures Acyclic(Truncate(fat, head))
  {
    AcyclicFewerLinks(fat, Truncate(fat, head));
  }

  /**
   * The growth step of `my_write`: allocates a block and links the end of
   * the chain, `last`, to it. Returns 0 with nothing changed when the disk
   * is full.
   */
  function Append(fat: Table, last: nat): (r: (nat, Table))
    requires Shaped(fat) && last < BLOCK_NUM && fat[last].Terminal?
    ensures Shaped(r.1)
    ensures r.0 == 0 <==> Full(fat)
    ensures r.0 == 0 ==> r.1 == fat
    ensures r.0 != 0 ==>
      && DATA_BLOCK <= r.0 < BLOCK_NUM && r.0 != last
      && fat[r.0].Free?
      && r.1 == fat[r.0 := Terminal][last := Next(r.0)]
  {
    var (nb, fat1) := Alloc(fat);
    if nb == 0 then (0, fat) else (nb, fat1[last := Next(nb)])
  }

  lemma AppendAcyclic(fat: Table, last: nat)
    requires Acyclic(fat) && last < BLOCK_NUM && fat[last].Terminal?
    ensures Acyclic(Append(fat, last).1)
  {
    var (nb, fat1) := Alloc(fat);
    if nb != 0 {
      AllocAcyclic(fat);
      AcyclicLink(fat1, last, nb);
    }
  }

  /** A walk of `k` hops only reads the entries of the blocks it leaves. */
  lemma {:induction false} HopFrame(fat: Table, fat': Table, b: nat, k: nat)
    requires Shaped(fat) && Shaped(fat') && b < BLOCK_NUM
    requires forall i :: 0 <= i < k && Hop(fat, b, i).Some? ==>
      fat'[Hop(fat, b, i).value] == fat[Hop(fat, b, i).value]
    ensures Hop(fat', b, k) == Hop(fat, b, k)
    decreases k
  {
    if k > 0 {
      HopFrame(fat, fat', b, k - 1);
      HopSucc(fat, b, k - 1);
      HopSucc(fat', b, k - 1);
    }
  }

  /** `c` lists the blocks of one whole chain in order: each links to the
      next, and the last is not a link. */
  ghost predicate Walk(fat: Table, c: seq<nat>)
  {
    && Shaped(fat)
    && |c| >= 1
    && (forall j :: 0 <= j < |c| ==> c[j] < BLOCK_NUM)
    && (forall j {:trigger fat[c[j]]} :: 0 <= j < |c| - 1 ==> fat[c[j]] == Next(c[j + 1]))
    && !fat[c[|c| - 1]].Next?
  }

  /** Walking from the head of a listed chain visits exactly its blocks. */
  lemma {:induction false} WalkHop(fat: Table, c: seq<nat>, i: nat)
    requires Walk(fat, c)
    ensures Hop(fat, c[0], i) == if i < |c| then Some(c[i]) else None
    decreases i
  {
    if i > 0 && |c| > 1 {
      assert fat[c[0]] == Next(c[1]);
      assert Walk(fat, c[1..]);
      WalkHop(fat, c[1..], i - 1);
    }
  }

  /** Every tail of a listed chain is a listed chain. */
  lemma WalkSuffix(fat: Table, c: seq<nat>, i: nat)
    requires Walk(fat, c) && i < |c|
    ensures Walk(fat, c[i..])
  {
    var d := c[i..];
    forall j | 0 <= j < |d| - 1
      ensures fat[d[j]] == Next(d[j + 1])
    {
      assert d[j] == c[i + j] && d[j + 1] == c[i + j + 1];
    }
  }

  /** A block linking to the head of a listed chain lists one block more. */
  lemma WalkCons(fat: Table, b: nat, d: seq<nat>)
    requires Walk(fat, d) && b < BLOCK_NUM && fat[b] == Next(d[0])
    ensures Walk(fat, [b] + d)
  {
    var c := [b] + d;
    forall j | 0 <= j < |c| - 1
      ensures fat[c[j]] == Next(c[j + 1])
    {
      if j > 0 {
        assert c[j] == d[j - 1] && c[j + 1] == d[j];
      }
    }
  }

  /** Two listed chains from the same block are the same list. */
  lemma WalkUnique(fat: Table, c: seq<nat>, d: seq<nat>)
    requires Walk(fat, c) && Walk(fat, d) && c[0] == d[0]
    ensures c == d
  {
    WalkHop(fat, c, |c|);
    WalkHop(fat, d, |c|);
    WalkHop(fat, d, |d|);
    WalkHop(fat, c, |d|);
    assert |c| == |d|;
    forall i | 0 <= i < |c|
      ensures c[i] == d[i]
    {
      WalkHop(fat, c, i);
      WalkHop(fat, d, i);
    }
  }

  /** On a loop-free table a listed chain repeats no block. */
  lemma WalkDistinct(fat: Table, c: seq<nat>)
    requires Walk(fat, c) && Acyclic(fat)
    ensures forall i, j :: 0 <= i < j < |c| ==> c[i] != c[j]
  {
    forall i, j | 0 <= i < j < |c|
      ensures c[i] != c[j]
    {
      WalkHop(fat, c, i);
      WalkHop(fat, c, j);
      HopDistinct(fat, c[0], i, j);
    }
  }

  lemma {:induction false} ChainLinks(fat: Table, b: nat, fuel: nat)
    requires Shaped(fat) && b < BLOCK_NUM
    ensures forall j :: 0 <= j < |Chain(fat, b, fuel)| - 1 ==>
      fat[Chain(fat, b, fuel)[j]] == Next(Chain(fat, b, fuel)[j + 1])
    decreases fuel
  {
    if fat[b].Next? && fuel > 0 {
      var c := Chain(fat, b, fuel);
      var c1 := Chain(fat, fat[b].next, fuel - 1);
      ChainLinks(fat, fat[b].next, fuel - 1);
      assert c == [b] + c1;
      forall j | 0 <= j < |c| - 1
        ensures fat[c[j]] == Next(c[j + 1])
      {
        if j > 0 {
          assert c[j] == c1[j - 1] && c[j + 1] == c1[j - 1 + 1];
          assert fat[c1[j - 1]] == Next(c1[j - 1 + 1]);
        } else {
          assert c[1] == c1[0] == fat[b].next;
        }
      }
    }
  }

  /** On a loop-free table, the chain from `b` followed to its end. */
  lemma ChainWalk(fat: Table, b: nat)
    requires Acyclic(fat) && b < BLOCK_NUM
    ensures Walk(fat, Chain(fat, b, BLOCK_NUM))
  {
    ChainLinks(fat, b, BLOCK_NUM);
    ChainComplete(fat, b);
  }
}
