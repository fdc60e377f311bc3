/**
 * The pages of all processes over whole runs of the system calls that change them: allocproc(),
 * fork(), growproc() and freeproc() of any processes in any order, each with its failure paths.
 */
module ProcessMemory {
  import opened PageOwnership
  import opened PageTable

  /** The part of struct proc that has to do with pages. */
  datatype Proc = Proc(trapframe: int, root: int, sz: int)

  ghost predicate HasTrapframe(procs: seq<Proc>, j: int, y: int) { 0 <= j < |procs| && procs[j].trapframe == y }

  ghost predicate HasRoot(procs: seq<Proc>, j: int, r: int) { 0 <= j < |procs| && procs[j].root == r }

  /** Page y is as it was at boot, or it was free then and is free now or some process's. */
  ghost predicate PageOk(boot: Owners, o: Owners, procs: seq<Proc>, y: int)
    requires y in boot && y in o
  {
    if boot[y] != Free then o[y] == boot[y] else
    match o[y]
    case Free => true
    case Kernel => exists j :: HasTrapframe(procs, j, y)
    case Node(root, _, _, _) => exists j :: HasRoot(procs, j, root)
  }

  ghost predicate ProcOk(boot: Owners, m: Mem, o: Owners, p: Proc) {
    && 0 <= p.sz && UserSpace(m, o, p.root, Pages(p.sz)) && p.root in boot && boot[p.root] == Free
    && p.trapframe in boot && boot[p.trapframe] == Free && p.trapframe in o && o[p.trapframe] == Kernel
  }

  ghost predicate Apart(procs: seq<Proc>) {
    forall i, j | 0 <= i < j < |procs| :: procs[i].root != procs[j].root && procs[i].trapframe != procs[j].trapframe
  }

  /** No page of boot belongs to an address space whose root is free. */
  ghost predicate BootOk(boot: Owners) {
    forall y | y in boot && boot[y].Node? :: boot[y].root in boot && boot[boot[y].root] != Free
  }

  /** Every page is accounted for, and every process has an address space of its own. */
  ghost predicate Accounted(boot: Owners, m: Mem, o: Owners, procs: seq<Proc>) {
    && BootOk(boot) && o.Keys == boot.Keys && (forall y | y in boot :: PageOk(boot, o, procs, y))
    && Apart(procs) && forall j | 0 <= j < |procs| :: ProcOk(boot, m, o, procs[j])
  }

  /** With no process left, every page is owned as at boot. */
  lemma NothingLost(boot: Owners, m: Mem, o: Owners)
    requires Accounted(boot, m, o, [])
    ensures o == boot
  {
    forall y | y in boot ensures o[y] == boot[y] { assert PageOk(boot, o, [], y); }
  }

  // ---------------------------------------------------------------- what other processes see

  /** p's user memory: the same pages with the same permissions and the same contents. */
  ghost predicate SameImage(m0: Mem, m: Mem, p: Proc) {
    forall w | 0 <= w < Pages(p.sz) && w < MAXVPN ::
      && Mapping(m, p.root, w) == Mapping(m0, p.root, w)
      && (Mapping(m, p.root, w).ppn in m0 ==> Mapping(m, p.root, w).ppn in m && m[Mapping(m, p.root, w).ppn] == m0[Mapping(m, p.root, w).ppn])
  }

  /** A step that neither touches r's mappings nor takes its pages leaves its memory alone. */
  lemma ImageKept(m0: Mem, o0: Owners, m: Mem, o: Owners, p: Proc, r: int, lo: int, hi: int)
    requires TreesOk(m0, o0, -1, 0) && UserSpace(m0, o0, p.root, Pages(p.sz)) && (p.root != r || lo >= hi)
    requires SameMaps(m0, m, o0, r, lo, hi) && (SameData(m0, m, o0) || SameData(m0, m, o))
    requires forall y | y in o0 && BelongsTo(o0[y], p.root) :: y in o && o[y] == o0[y]
    ensures SameImage(m0, m, p)
  {
    hide TreesOk, Mapping;
    forall w | 0 <= w < Pages(p.sz) && w < MAXVPN
      ensures Mapping(m, p.root, w) == Mapping(m0, p.root, w)
      ensures Mapping(m, p.root, w).ppn in m0 ==>
                Mapping(m, p.root, w).ppn in m && m[Mapping(m, p.root, w).ppn] == m0[Mapping(m, p.root, w).ppn]
    {
      MappedIsOwned(m0, o0, p.root, w);
    }
  }

  /** Every process but number `but` has the memory it had. */
  ghost predicate OthersKeep(m0: Mem, m: Mem, procs: seq<Proc>, but: int) {
    forall k | 0 <= k < |procs| && k != but :: SameImage(m0, m, procs[k])
  }

  lemma OthersKept(boot: Owners, m0: Mem, o0: Owners, m: Mem, o: Owners, procs: seq<Proc>, but: int, r: int, lo: int, hi: int)
    requires TreesOk(m0, o0, -1, 0) && Accounted(boot, m0, o0, procs)
    requires SameMaps(m0, m, o0, r, lo, hi) && (SameData(m0, m, o0) || SameData(m0, m, o))
    requires forall k | 0 <= k < |procs| && k != but :: procs[k].root != r || lo >= hi
    requires forall k, y | 0 <= k < |procs| && k != but && y in o0 && BelongsTo(o0[y], procs[k].root) :: y in o && o[y] == o0[y]
    ensures OthersKeep(m0, m, procs, but)
  {
    hide TreesOk, SameMaps, SameData, UserSpace, SameImage, PageOk;
    forall k | 0 <= k < |procs| && k != but ensures SameImage(m0, m, procs[k]) {
      assert ProcOk(boot, m0, o0, procs[k]);
      ImageKept(m0, o0, m, o, procs[k], r, lo, hi);
    }
  }

  lemma BornKept(boot: Owners, m0: Mem, o0: Owners, m: Mem, o: Owners, procs: seq<Proc>, r: int, tf: int)
    requires TreesOk(m0, o0, -1, 0) && Accounted(boot, m0, o0, procs) && BornWith(m0, o0, m, o, r, tf)
    ensures OthersKeep(m0, m, procs, -1)
  {
    hide TreesOk, SameMaps, SameData, Accounted;
    forall y | y in o0 && o0[y] != Free ensures y in o && o[y] == o0[y] { assert o[tf := Free][y] == o0[y]; }
    OthersKept(boot, m0, o0, m, o, procs, -1, 0, 0, 0);
  }

  lemma ResizeKept(boot: Owners, m0: Mem, o0: Owners, m: Mem, o: Owners, procs: seq<Proc>, j: int, lo: int, hi: int)
    requires TreesOk(m0, o0, -1, 0) && Accounted(boot, m0, o0, procs) && 0 <= j < |procs|
    requires Exchanged(o0, o, procs[j].root) && SameMaps(m0, m, o0, procs[j].root, lo, hi) && (SameData(m0, m, o0) || SameData(m0, m, o))
    ensures OthersKeep(m0, m, procs, j)
  {
    hide TreesOk, SameMaps, SameData, PageOk, ProcOk;
    OthersKept(boot, m0, o0, m, o, procs, j, procs[j].root, lo, hi);
  }

  lemma FreeKept(boot: Owners, m0: Mem, o0: Owners, m: Mem, o: Owners, procs: seq<Proc>, j: int)
    requires TreesOk(m0, o0, -1, 0) && Accounted(boot, m0, o0, procs) && 0 <= j < |procs| && procs[j].trapframe in o0
    requires o0[procs[j].trapframe] == Kernel
    requires Gone(o0[procs[j].trapframe := Free], o, procs[j].root) && SameMaps(m0, m, o0, procs[j].root, 0, MAXVPN) && SameData(m0, m, o)
    ensures OthersKeep(m0, m, procs, j)
  {
    hide TreesOk, SameMaps, SameData, PageOk, ProcOk;
    OthersKept(boot, m0, o0, m, o, procs, j, procs[j].root, 0, MAXVPN);
  }

  lemma SpaceKept(m0: Mem, o0: Owners, m: Mem, o: Owners, r: int, pages: int, r': int, lo: int, hi: int)
    requires UserSpace(m0, o0, r, pages) && (r != r' || lo >= hi) && SameMaps(m0, m, o0, r', lo, hi) && IsRoot(o, r)
    ensures UserSpace(m, o, r, pages)
  {
    hide Mapping;
  }

  // ---------------------------------------------------------------- one step each

  /** A process was added, with a free page for its trapframe and free pages for its address space. */
  lemma Added(boot: Owners, m0: Mem, o0: Owners, m: Mem, o: Owners, procs: seq<Proc>, p: Proc)
    requires Accounted(boot, m0, o0, procs) && BornWith(m0, o0, m, o, p.root, p.trapframe)
    requires 0 <= p.sz && UserSpace(m, o, p.root, Pages(p.sz))
    ensures Accounted(boot, m, o, procs + [p])
  {
    hide Mapping, SameMaps, SameData;
    var procs' := procs + [p];
    forall y | y in o0 && o0[y] != Free ensures o[y] == o0[y] { assert o[p.trapframe := Free][y] == o0[y]; }
    forall y | y in boot ensures PageOk(boot, o, procs', y) {
      assert PageOk(boot, o0, procs, y);
      AddedPage(boot, o0, o, procs, p, y);
    }
    assert PageOk(boot, o0, procs, p.root) && PageOk(boot, o0, procs, p.trapframe);
    forall j | 0 <= j < |procs'| ensures ProcOk(boot, m, o, procs'[j]) {
      if j < |procs| {
        assert ProcOk(boot, m0, o0, procs[j]);
        SpaceKept(m0, o0, m, o, procs[j].root, Pages(procs[j].sz), 0, 0, 0);
      }
    }
    forall j | 0 <= j < |procs| ensures procs[j].root != p.root && procs[j].trapframe != p.trapframe {
      assert ProcOk(boot, m0, o0, procs[j]);
    }
  }

  lemma AddedPage(boot: Owners, o0: Owners, o: Owners, procs: seq<Proc>, p: Proc, y: int)
    requires y in boot && y in o0 && y in o && PageOk(boot, o0, procs, y) && p.trapframe in o && o[p.trapframe] == Kernel
    requires o0[y] != Free ==> o[y] == o0[y]
    requires o0[y] == Free ==> o[p.trapframe := Free][y] == Free || BelongsTo(o[p.trapframe := Free][y], p.root)
    ensures PageOk(boot, o, procs + [p], y)
  {
    var procs' := procs + [p];
    assert HasTrapframe(procs', |procs|, p.trapframe) && HasRoot(procs', |procs|, p.root);
    if boot[y] == Free && o0[y] != Free { MoreProcs(boot, o0, procs, p, y); }
  }

  lemma MoreProcs(boot: Owners, o: Owners, procs: seq<Proc>, p: Proc, y: int)
    requires y in boot && y in o && PageOk(boot, o, procs, y)
    ensures PageOk(boot, o, procs + [p], y)
  {
    if boot[y] == Free && o[y] == Kernel {
      var j :| HasTrapframe(procs, j, y);
      assert HasTrapframe(procs + [p], j, y);
    } else if boot[y] == Free && o[y].Node? {
      var j :| HasRoot(procs, j, o[y].root);
      assert HasRoot(procs + [p], j, o[y].root);
    }
  }

  /** The address space of process j grew or shrank. */
  lemma Resized(boot: Owners, m0: Mem, o0: Owners, m: Mem, o: Owners, procs: seq<Proc>, j: int, size: int, lo: int, hi: int)
    requires Accounted(boot, m0, o0, procs) && 0 <= j < |procs| && 0 <= size && UserSpace(m, o, procs[j].root, Pages(size))
    requires Exchanged(o0, o, procs[j].root) && SameMaps(m0, m, o0, procs[j].root, lo, hi)
    ensures Accounted(boot, m, o, procs[j := procs[j].(sz := size)])
  {
    hide Mapping, SameMaps, UserSpace, PageOk, Exchanged;
    var procs' := procs[j := procs[j].(sz := size)];
    assert ProcOk(boot, m0, o0, procs[j]);
    assert o.Keys == o0.Keys by { ResizedOther(boot, m0, o0, m, o, procs, j, j, lo, hi); }
    forall y | y in boot ensures PageOk(boot, o, procs', y) {
      assert PageOk(boot, o0, procs, y);
      ResizedPage(boot, o0, o, procs, j, y);
      SameProcs(boot, o, procs, procs', y);
    }
    forall k | 0 <= k < |procs'| ensures ProcOk(boot, m, o, procs'[k]) { ResizedOther(boot, m0, o0, m, o, procs, j, k, lo, hi); }
  }

  lemma ResizedPage(boot: Owners, o0: Owners, o: Owners, procs: seq<Proc>, j: int, y: int)
    requires 0 <= j < |procs| && y in boot && y in o0 && PageOk(boot, o0, procs, y) && BootOk(boot)
    requires procs[j].root in boot && boot[procs[j].root] == Free && Exchanged(o0, o, procs[j].root)
    ensures PageOk(boot, o, procs, y)
  {
    assert HasRoot(procs, j, procs[j].root);
    assert Mine(o0[y], procs[j].root) <==> Mine(o[y], procs[j].root);
  }

  lemma ResizedOther(boot: Owners, m0: Mem, o0: Owners, m: Mem, o: Owners, procs: seq<Proc>, j: int, k: int, lo: int, hi: int)
    requires Accounted(boot, m0, o0, procs) && 0 <= j < |procs| && 0 <= k < |procs|
    requires Exchanged(o0, o, procs[j].root) && SameMaps(m0, m, o0, procs[j].root, lo, hi)
    ensures o.Keys == o0.Keys && procs[k].trapframe in o && o[procs[k].trapframe] == Kernel
    ensures k != j ==> ProcOk(boot, m, o, procs[k])
  {
    hide Mapping, SameMaps, PageOk;
    assert ProcOk(boot, m0, o0, procs[j]) && ProcOk(boot, m0, o0, procs[k]);
    if k != j { SpaceKept(m0, o0, m, o, procs[k].root, Pages(procs[k].sz), procs[j].root, lo, hi); }
  }

  lemma SameProcs(boot: Owners, o: Owners, procs: seq<Proc>, procs': seq<Proc>, y: int)
    requires y in boot && y in o && PageOk(boot, o, procs, y) && |procs'| == |procs|
    requires forall j | 0 <= j < |procs| :: procs'[j].root == procs[j].root && procs'[j].trapframe == procs[j].trapframe
    ensures PageOk(boot, o, procs', y)
  {
    if boot[y] == Free && o[y] == Kernel {
      var j :| HasTrapframe(procs, j, y);
      assert HasTrapframe(procs', j, y);
    } else if boot[y] == Free && o[y].Node? {
      var j :| HasRoot(procs, j, o[y].root);
      assert HasRoot(procs', j, o[y].root);
    }
  }

  function Remove(procs: seq<Proc>, j: int): seq<Proc>
    requires 0 <= j < |procs|
  {
    procs[..j] + procs[j + 1..]
  }

  /** Process j was freed. */
  lemma Removed(boot: Owners, m0: Mem, o0: Owners, m: Mem, o: Owners, procs: seq<Proc>, j: int)
    requires Accounted(boot, m0, o0, procs) && 0 <= j < |procs| && procs[j].trapframe in o0
    requires Gone(o0[procs[j].trapframe := Free], o, procs[j].root) && SameMaps(m0, m, o0, procs[j].root, 0, MAXVPN)
    ensures Accounted(boot, m, o, Remove(procs, j))
  {
    hide Mapping, SameMaps, UserSpace, PageOk;
    var procs' := Remove(procs, j);
    assert ProcOk(boot, m0, o0, procs[j]);
    forall y | y in boot ensures PageOk(boot, o, procs', y) {
      assert PageOk(boot, o0, procs, y);
      RemovedPage(boot, o0, o, procs, j, y);
    }
    forall k | 0 <= k < |procs'| ensures ProcOk(boot, m, o, procs'[k]) {
      var k0 := if k < j then k else k + 1;
      assert procs'[k] == procs[k0];
      RemovedOther(boot, m0, o0, m, o, procs, j, k0);
    }
  }

  lemma RemovedOther(boot: Owners, m0: Mem, o0: Owners, m: Mem, o: Owners, procs: seq<Proc>, j: int, k: int)
    requires Accounted(boot, m0, o0, procs) && 0 <= j < |procs| && 0 <= k < |procs| && k != j && procs[j].trapframe in o0
    requires Gone(o0[procs[j].trapframe := Free], o, procs[j].root) && SameMaps(m0, m, o0, procs[j].root, 0, MAXVPN)
    ensures ProcOk(boot, m, o, procs[k])
  {
    hide Mapping, SameMaps, PageOk;
    assert ProcOk(boot, m0, o0, procs[j]) && ProcOk(boot, m0, o0, procs[k]);
    SpaceKept(m0, o0, m, o, procs[k].root, Pages(procs[k].sz), procs[j].root, 0, MAXVPN);
  }

  lemma RemovedPage(boot: Owners, o0: Owners, o: Owners, procs: seq<Proc>, j: int, y: int)
    requires 0 <= j < |procs| && y in boot && y in o0 && y in o && PageOk(boot, o0, procs, y) && BootOk(boot)
    requires procs[j].root in boot && boot[procs[j].root] == Free && procs[j].trapframe in boot && boot[procs[j].trapframe] == Free
    requires o[y] == if y == procs[j].trapframe then Free else if BelongsTo(o0[y], procs[j].root) then Free else o0[y]
    ensures PageOk(boot, o, Remove(procs, j), y)
  {
    var procs' := Remove(procs, j);
    if boot[y] == Free && o[y] == Kernel {
      var k :| HasTrapframe(procs, k, y);
      assert HasTrapframe(procs', if k < j then k else k - 1, y);
    } else if boot[y] == Free && o[y].Node? {
      var k :| HasRoot(procs, k, o[y].root);
      assert HasRoot(procs', if k < j then k else k - 1, o[y].root);
    }
  }

  // ---------------------------------------------------------------- runs

  datatype Step = Spawn | Fork(parent: int) | Grow(j: int, n: int) | Exit(j: int)

  predicate InTable(s: Step, count: int) {
    match s
    case Spawn => true
    case Fork(j) => 0 <= j < count
    case Grow(j, n) => 0 <= j < count && -0x8000_0000 <= n < 0x8000_0000
    case Exit(j) => 0 <= j < count
  }

  /** The sizes of all processes. */
  function Sizes(procs: seq<Proc>): (r: seq<int>)
    ensures |r| == |procs|
  {
    seq(|procs|, j requires 0 <= j < |procs| => procs[j].sz)
  }

  /** What one step does to the table of sizes; a step on a process that is not there does nothing. */
  function Stepped(sizes: seq<int>, s: Step, ok: bool): seq<int> {
    if !InTable(s, |sizes|) then sizes else
    match s
    case Spawn => if ok then sizes + [0] else sizes
    case Fork(j) => if ok then sizes + [sizes[j]] else sizes
    case Grow(j, n) => if ok && sizes[j] + n >= 0 then sizes[j := sizes[j] + n] else sizes
    case Exit(j) => sizes[..j] + sizes[j + 1..]
  }

  function Ran(sizes: seq<int>, steps: seq<Step>, oks: seq<bool>, n: nat): seq<int>
    requires n <= |steps| && n <= |oks|
  {
    if n == 0 then sizes else Stepped(Ran(sizes, steps, oks, n - 1), steps[n - 1], oks[n - 1])
  }

  lemma {:induction false} RanMore(sizes: seq<int>, steps: seq<Step>, oks: seq<bool>, ok: bool, n: nat)
    requires n <= |steps| && n <= |oks|
    ensures Ran(sizes, steps, oks + [ok], n) == Ran(sizes, steps, oks, n)
  {
    if n > 0 { RanMore(sizes, steps, oks, ok, n - 1); }
  }

  class System {
    const kernel: Kernel
    const trampoline: int
    var procs: seq<Proc>
    ghost const boot: Owners

    ghost predicate Valid()
      reads this, kernel
    {
      kernel.Valid() && Accounted(boot, kernel.mem, kernel.owner, procs)
    }

    /** No processes yet; what the kernel holds now it keeps. */
    constructor (k: Kernel, trampoline: int)
      requires k.Valid()
      ensures Valid() && kernel == k && procs == [] && boot == k.owner
    {
      kernel, this.trampoline, procs, boot := k, trampoline, [], k.owner;
      new;
      forall y | y in boot && boot[y].Node? ensures boot[y].root in boot && boot[boot[y].root] != Free {
        RootExists(kernel.mem, boot, y);
      }
    }

    /** allocproc() for a process without user memory. */
    method SpawnProc() returns (ok: bool)
      requires Valid()
      modifies this`procs, kernel
      ensures Valid() && OthersKeep(old(kernel.mem), kernel.mem, old(procs), -1)
      ensures if ok then |procs| == |old(procs)| + 1 && procs == old(procs) + [procs[|old(procs)|].(sz := 0)] else procs == old(procs)
      ensures !ok ==> kernel.owner == old(kernel.owner) && |old(kernel.freelist)| <= 6
    {
      hide Accounted, TreesOk, FreeListOk, BornWith, SameMaps, SameData, UserSpace;
      ghost var m0, o0 := kernel.mem, kernel.owner;
      var trapframe, root;
      PagesOfNothing();
      trapframe, root := kernel.AllocProc(trampoline);
      if root == -1 {
        OthersKept(boot, m0, o0, kernel.mem, o0, procs, -1, 0, 0, 0);
        SameOwners(boot, m0, o0, kernel.mem, procs);
        return false;
      }
      BornKept(boot, m0, o0, kernel.mem, kernel.owner, procs, root, trapframe);
      Added(boot, m0, o0, kernel.mem, kernel.owner, procs, Proc(trapframe, root, 0));
      procs := procs + [Proc(trapframe, root, 0)];
      return true;
    }

    /** The memory side of fork(). */
    method ForkProc(j: int) returns (ok: bool)
      requires Valid() && 0 <= j < |procs|
      modifies this`procs, kernel
      ensures Valid() && OthersKeep(old(kernel.mem), kernel.mem, old(procs), -1)
      ensures if ok then |procs| == |old(procs)| + 1 && procs == old(procs) + [procs[|old(procs)|]] else procs == old(procs)
      ensures ok ==> var c, p := procs[|procs| - 1], procs[j];
                     c.sz == p.sz && forall w | 0 <= w < Pages(p.sz) && w < MAXVPN ::
                                       Copied(old(kernel.mem), kernel.mem, kernel.owner, p.root, c.root, w)
      ensures !ok ==> kernel.owner == old(kernel.owner) && |old(kernel.freelist)| <= 6 + 3 * Pages(procs[j].sz)
    {
      hide TreesOk, FreeListOk, BornWith, SameMaps, SameData, UserSpace, PageOk, Copied, Pages;
      ghost var m0, o0 := kernel.mem, kernel.owner;
      var trapframe, root;
      assert ProcOk(boot, m0, o0, procs[j]);
      hide Accounted;
      trapframe, root := kernel.ForkMemory(procs[j].root, procs[j].sz, trampoline);
      if root == -1 {
        OthersKept(boot, m0, o0, kernel.mem, o0, procs, -1, 0, 0, 0);
        SameOwners(boot, m0, o0, kernel.mem, procs);
        return false;
      }
      BornKept(boot, m0, o0, kernel.mem, kernel.owner, procs, root, trapframe);
      Added(boot, m0, o0, kernel.mem, kernel.owner, procs, Proc(trapframe, root, procs[j].sz));
      procs := procs + [Proc(trapframe, root, procs[j].sz)];
      return true;
    }

    /** growproc(). */
    method GrowProc(j: int, n: int) returns (ok: bool)
      requires Valid() && 0 <= j < |procs| && -0x8000_0000 <= n < 0x8000_0000
      modifies this`procs, kernel
      ensures Valid() && OthersKeep(old(kernel.mem), kernel.mem, old(procs), j)
      ensures var p := old(procs)[j];
              procs == old(procs)[j := p.(sz := if ok && p.sz + n >= 0 then p.sz + n else p.sz)]
      ensures !ok ==> n > 0 && |old(kernel.freelist)| <= 3 * (Pages(old(procs)[j].sz + n) - Pages(old(procs)[j].sz))
    {
      hide TreesOk, FreeListOk, SameMaps, SameData, UserSpace, PageOk, Exchanged, Released, Grown, Holds, Pages;
      ghost var m0, o0 := kernel.mem, kernel.owner;
      var p := procs[j];
      assert ProcOk(boot, m0, o0, p);
      hide Accounted;
      var size;
      ok, size := kernel.GrowProc(p.root, p.sz, n);
      ghost var lo, hi := Pages(if n < 0 then size else p.sz), Pages(if n > 0 then size else p.sz);
      Resized(boot, m0, o0, kernel.mem, kernel.owner, procs, j, size, lo, hi);
      ResizeKept(boot, m0, o0, kernel.mem, kernel.owner, procs, j, lo, hi);
      procs := procs[j := p.(sz := size)];
    }

    /** freeproc(), when the process is reaped. */
    method FreeProc(j: int)
      requires Valid() && 0 <= j < |procs|
      modifies this`procs, kernel
      ensures Valid() && OthersKeep(old(kernel.mem), kernel.mem, old(procs), j) && procs == Remove(old(procs), j)
    {
      hide TreesOk, FreeListOk, SameMaps, SameData, UserSpace, PageOk, Gone;
      ghost var m0, o0 := kernel.mem, kernel.owner;
      var p := procs[j];
      assert ProcOk(boot, m0, o0, p);
      hide Accounted;
      kernel.FreeProc(p.trapframe, p.root, p.sz);
      Removed(boot, m0, o0, kernel.mem, kernel.owner, procs, j);
      FreeKept(boot, m0, o0, kernel.mem, kernel.owner, procs, j);
      procs := Remove(procs, j);
    }

    /** One step of a run. */
    method Take(s: Step) returns (ok: bool)
      requires Valid()
      modifies this`procs, kernel
      ensures Valid() && Sizes(procs) == Stepped(old(Sizes(procs)), s, ok)
    {
      hide Accounted, TreesOk, FreeListOk;
      ok := true;
      if !InTable(s, |procs|) { return; }
      match s
      case Spawn => ok := SpawnProc();
      case Fork(j) => ok := ForkProc(j);
      case Grow(j, n) => ok := GrowProc(j, n);
      case Exit(j) => FreeProc(j);
    }

    /**
     * Any run: every page stays accounted for, so that when no process is left none has been lost.
     * Which processes there are is what the steps and their successes say.
     */
    method Run(steps: seq<Step>) returns (oks: seq<bool>)
      requires Valid()
      modifies this`procs, kernel
      ensures Valid() && |oks| == |steps| && Sizes(procs) == Ran(old(Sizes(procs)), steps, oks, |steps|)
      ensures procs == [] ==> kernel.owner == boot
    {
      hide Accounted, TreesOk, FreeListOk, Sizes, Stepped;
      oks := [];
      while |oks| < |steps|
        invariant |oks| <= |steps| && Valid() && Sizes(procs) == Ran(old(Sizes(procs)), steps, oks, |oks|)
        decreases |steps| - |oks|
      {
        var ok;
        ok := Take(steps[|oks|]);
        RanMore(old(Sizes(procs)), steps, oks, ok, |oks|);
        oks := oks + [ok];
      }
      if procs == [] { NothingLost(boot, kernel.mem, kernel.owner); }
    }
  }

  lemma PagesOfNothing()
    ensures Pages(0) == 0
  {
  }

  lemma SameOwners(boot: Owners, m0: Mem, o: Owners, m: Mem, procs: seq<Proc>)
    requires Accounted(boot, m0, o, procs) && SameMaps(m0, m, o, 0, 0, 0)
    ensures Accounted(boot, m, o, procs)
  {
    hide Mapping, SameMaps;
    forall j | 0 <= j < |procs| ensures ProcOk(boot, m, o, procs[j]) {
      assert ProcOk(boot, m0, o, procs[j]);
      SpaceKept(m0, o, m, o, procs[j].root, Pages(procs[j].sz), 0, 0, 0);
    }
  }
}
