/**
 * The memory of a process as its own code and copyin()/copyout() reach it, byte by byte: address
 * spaces of module PageTable, seen by module UserCopy (vm.c, proc.c).
 */
module UserMemory {
  import opened PageOwnership
  import opened PageTable
  import U = UserCopy

  // ---------------------------------------------------------------- bytes of a page

  function Flag(on: bool, bit: int): int { if on then bit else 0 }

  /** An entry as its 64-bit word (PA2PTE and the flag bits of riscv.h). */
  function WordOf(e: Pte): int { e.ppn * 1024 + Flags(e) }

  function Flags(e: Pte): int { Flag(e.v, 1) + Flag(e.r, 2) + Flag(e.w, 4) + Flag(e.x, 8) + Flag(e.u, 16) }

  /** A 64-bit word as an entry (PTE2PA, which keeps all of the upper bits, and the flag bits). */
  function EntryOf(w: int): Pte {
    Pte(w / 1024, w % 2 == 1, w / 2 % 2 == 1, w / 4 % 2 == 1, w / 8 % 2 == 1, w / 16 % 2 == 1)
  }

  lemma EntryRoundTrip(e: Pte)
    ensures EntryOf(WordOf(e)) == e
  {
    hide WordOf, Flags;
    FlagBits(e);
    Bits(e.ppn, Flags(e));
  }

  /** The page number does not reach down to the flags. */
  lemma Bits(p: int, f: int)
    requires 0 <= f < 32
    ensures var w := p * 1024 + f;
            w / 1024 == p && w % 2 == f % 2 && w / 2 % 2 == f / 2 % 2 && w / 4 % 2 == f / 4 % 2 && w / 8 % 2 == f / 8 % 2 && w / 16 % 2 == f / 16 % 2
  {
    var w := p * 1024 + f;
    Halves(w);
    Halves(f);
    Half(512 * p, f);
    Half(256 * p, f / 2);
    Half(128 * p, f / 4);
    Half(64 * p, f / 8);
    Half(32 * p, f / 16);
    Whole(p, f);
  }

  lemma Half(a: int, f: int)
    ensures (2 * a + f) / 2 == a + f / 2 && (2 * a + f) % 2 == f % 2
  {
  }

  lemma Halves(x: int)
    ensures x / 4 == x / 2 / 2 && x / 8 == x / 4 / 2 && x / 16 == x / 8 / 2
  {
  }

  lemma Whole(p: int, f: int)
    requires 0 <= f < 1024
    ensures (p * 1024 + f) / 1024 == p
  {
  }

  lemma FlagBits(e: Pte)
    ensures var f := Flags(e);
            && 0 <= f < 32 && WordOf(e) == e.ppn * 1024 + f
            && (f % 2 == 1 <==> e.v) && (f / 2 % 2 == 1 <==> e.r) && (f / 4 % 2 == 1 <==> e.w) && (f / 8 % 2 == 1 <==> e.x) && (f / 16 % 2 == 1 <==> e.u)
  {
  }

  /** What kfree() and kalloc() fill pages with, byte after byte, as entries. */
  lemma Junk()
    ensures EntryOf(0x0101_0101_0101_0101) == ONES && EntryOf(0x0505_0505_0505_0505) == FIVES && EntryOf(0) == ZERO
    ensures !ONES.Leaf() && FIVES.Leaf()
  {
  }

  /** Byte j of a little-endian word. */
  function ByteOf(w: int, j: nat): int
    decreases j
  {
    if j == 0 then w % 256 else ByteOf(w / 256, j - 1)
  }

  function PageBytes(page: seq<Pte>): (b: seq<int>)
    ensures |b| == U.PGSIZE
  {
    seq(U.PGSIZE, o requires 0 <= o < U.PGSIZE => if o / 8 < |page| then ByteOf(WordOf(page[o / 8]), o % 8) else 0)
  }

  lemma {:induction false} NoBytes(j: nat)
    ensures ByteOf(0, j) == 0
  {
    if j > 0 { NoBytes(j - 1); }
  }

  /** A page that memset() cleared has only zero bytes. */
  lemma ClearedBytes(o: int)
    requires 0 <= o < U.PGSIZE
    ensures PageBytes(EmptyTable())[o] == 0
  {
    NoBytes(o % 8);
  }

  // ---------------------------------------------------------------- an address space

  ghost function FramesOf(mem: Mem): U.Frames { map p | p in mem :: PageBytes(mem[p]) }

  ghost function TableOf(mem: Mem, root: int): U.Table { map v | 0 <= v < MAXVPN :: Mapping(mem, root, v) }

  /** copyin() (or copyout(), if `write`) may reach address va of the address space. */
  ghost predicate Reaches(mem: Mem, root: int, va: int, write: bool) { U.Allowed(TableOf(mem, root), FramesOf(mem), va, write) }

  ghost function ByteAt(mem: Mem, root: int, va: int): int
    requires Reaches(mem, root, va, false)
  {
    U.Load(TableOf(mem, root), FramesOf(mem), va)
  }

  datatype Access = Read | Write | Execute

  /** User code may access the page (section 4.3 of the RISC-V Privileged Architecture, version 20211203). */
  predicate UserMay(e: Pte, a: Access) {
    && e.v && e.u && (e.w ==> e.r)
    && match a case Read => e.r case Write => e.w case Execute => e.x
  }

  ghost predicate UserMayAt(mem: Mem, root: int, va: int, a: Access) {
    0 <= va < U.MAXVA && UserMay(Mapping(mem, root, va / U.PGSIZE), a)
  }

  datatype Translation = Fault | Page(e: Pte) | Superpage

  /** Address translation as the hardware does it (Sv39, section 4.3.2 there), from the table at `a`. */
  ghost function Translated(mem: Mem, a: int, va: int, level: nat): Translation
    requires 0 <= va < U.MAXVA && level <= 2
    decreases level
  {
    if !Table(mem, a) then Fault else
    var e := mem[a][(if level == 2 then va / 0x4000_0000 else if level == 1 then va / 0x20_0000 else va / 0x1000) % 512];
    if !e.v || (!e.r && e.w) then Fault
    else if e.r || e.x then if level == 0 then Page(e) else Superpage
    else if level == 0 then Fault
    else Translated(mem, e.ppn, va, level - 1)
  }

  lemma TranslatedStep(mem: Mem, owner: Owners, root: int, va: int, d: int)
    requires TreesOk(mem, owner, -1, 0) && IsRoot(owner, root) && 0 <= va < U.MAXVA && 0 <= d <= 1
    requires Find(mem, root, va / 4096, d) != -1
    ensures var q, q' := Find(mem, root, va / 4096, d), Find(mem, root, va / 4096, d + 1);
            Translated(mem, q, va, 2 - d) == if q' == -1 then Fault else Translated(mem, q', va, 1 - d)
  {
    var v := va / 4096;
    var q := Find(mem, root, v, d);
    FindIsLabelled(mem, owner, -1, 0, root, v, d);
    PreStep(v, d);
    Indices(va);
    assert EntryOk(mem, owner, q, Px(v, d));
  }

  /** The three nine-bit parts of an address. */
  lemma Indices(va: int)
    requires 0 <= va < U.MAXVA
    ensures Px(va / 4096, 0) == va / 0x4000_0000 % 512 && Px(va / 4096, 1) == va / 0x20_0000 % 512 && Px(va / 4096, 2) == va / 0x1000 % 512
  {
    assert va / 4096 / 0x40000 == va / 0x4000_0000;
    assert va / 4096 / 512 == va / 0x20_0000;
  }

  /** In every table that the kernel keeps, the hardware finds the entry that Mapping() names. */
  lemma AsHardware(mem: Mem, owner: Owners, root: int, va: int)
    requires TreesOk(mem, owner, -1, 0) && IsRoot(owner, root) && 0 <= va < U.MAXVA
    ensures var e := Mapping(mem, root, va / 4096);
            Translated(mem, root, va, 2) == if e.v && (e.r || e.x) && (e.w ==> e.r) then Page(e) else Fault
    ensures forall a :: UserMayAt(mem, root, va, a) ==> Translated(mem, root, va, 2) == Page(Mapping(mem, root, va / 4096))
  {
    var v := va / 4096;
    hide TreesOk;
    TranslatedStep(mem, owner, root, va, 0);
    if Find(mem, root, v, 1) != -1 { TranslatedStep(mem, owner, root, va, 1); }
    Indices(va);
  }

  /** A byte that user code can read and write, and copyin() and copyout() can reach, but that nobody can execute. */
  ghost predicate Usable(mem: Mem, root: int, va: int) {
    && UserMayAt(mem, root, va, Read) && UserMayAt(mem, root, va, Write) && !UserMayAt(mem, root, va, Execute)
    && Reaches(mem, root, va, false) && Reaches(mem, root, va, true)
  }

  /** What decides about reach and contents: the entry, and the page that it names. */
  lemma ReachIs(mem: Mem, root: int, va: int, write: bool)
    requires 0 <= va < U.MAXVA
    ensures var e := Mapping(mem, root, va / U.PGSIZE);
            && (Reaches(mem, root, va, write) <==> e.v && e.u && e.ppn in mem && if write then e.w else e.ppn != 0)
            && (Reaches(mem, root, va, false) ==> ByteAt(mem, root, va) == PageBytes(mem[e.ppn])[va % U.PGSIZE])
  {
    hide PageBytes;
    assert va / U.PGSIZE in TableOf(mem, root);
  }

  /** The tables of the kernel are fit for copyin() and copyout(). */
  lemma SpaceFramesOk(mem: Mem, owner: Owners, root: int)
    requires TreesOk(mem, owner, -1, 0) && IsRoot(owner, root) && Guarded(mem, root)
    ensures U.FramesOk(TableOf(mem, root), FramesOf(mem))
  {
    hide PageBytes;
    var pt := TableOf(mem, root);
    forall v | v in pt && pt[v].v && pt[v].u ensures pt[v].ppn in FramesOf(mem) && |FramesOf(mem)[pt[v].ppn]| == U.PGSIZE {
      if v < TRAPFRAME { MappedIsOwned(mem, owner, root, v); }
    }
  }

  /** The trapframe and the trampoline are not for user code. */
  ghost predicate Guarded(mem: Mem, root: int) { !Mapping(mem, root, TRAPFRAME).u && !Mapping(mem, root, TRAMPOLINE).u }

  /** A page that was just allocated for the heap. */
  lemma HeapPage(mem: Mem, owner: Owners, root: int, va: int)
    requires TreesOk(mem, owner, -1, 0) && IsRoot(owner, root) && 0 <= va && va / U.PGSIZE < TRAPFRAME
    requires Holds(mem, owner, root, va / U.PGSIZE, HEAP, EmptyTable())
    ensures Usable(mem, root, va) && ByteAt(mem, root, va) == 0
  {
    hide PageBytes, TreesOk, Mapping;
    MappedIsOwned(mem, owner, root, va / U.PGSIZE);
    ReachIs(mem, root, va, false);
    ReachIs(mem, root, va, true);
    ClearedBytes(va % U.PGSIZE);
  }

  /** An entry and its page that stay: the byte stays as it is. */
  lemma SameByte(mem: Mem, root: int, mem': Mem, root': int, va: int)
    requires 0 <= va < U.MAXVA
    requires var e, e' := Mapping(mem, root, va / U.PGSIZE), Mapping(mem', root', va / U.PGSIZE);
             && e' == e.(ppn := e'.ppn) && (e.v && e.u ==> e.ppn != 0 && e'.ppn != 0 && e.ppn in mem && e'.ppn in mem' && mem'[e'.ppn] == mem[e.ppn])
    ensures SameAt(mem, root, mem', root', va)
  {
    hide PageBytes, Mapping;
    ReachIs(mem, root, va, false);
    ReachIs(mem, root, va, true);
    ReachIs(mem', root', va, false);
    ReachIs(mem', root', va, true);
  }

  /** Address va of two address spaces: the same access, and the same byte. */
  ghost predicate SameAt(mem: Mem, root: int, mem': Mem, root': int, va: int) {
    && (forall write :: Reaches(mem', root', va, write) <==> Reaches(mem, root, va, write))
    && (forall a :: UserMayAt(mem', root', va, a) <==> UserMayAt(mem, root, va, a))
    && (Reaches(mem, root, va, false) ==> ByteAt(mem', root', va) == ByteAt(mem, root, va))
  }

  /** Different pages, of one process or of two, are different frames: what one stores, no other address shows. */
  lemma Isolated(mem: Mem, owner: Owners, root: int, va: int, b: int, root': int, va': int)
    requires TreesOk(mem, owner, -1, 0) && IsRoot(owner, root) && IsRoot(owner, root') && Guarded(mem, root) && Guarded(mem, root')
    requires Reaches(mem, root, va, true) && Reaches(mem, root', va', false) && (root != root' || va != va')
    ensures var frames := U.Store(TableOf(mem, root), FramesOf(mem), va, b);
            U.Allowed(TableOf(mem, root'), frames, va', false) && U.Load(TableOf(mem, root'), frames, va') == ByteAt(mem, root', va')
  {
    hide PageBytes, Mapping, TreesOk;
    MappedBelow(mem, owner, root, va, true);
    MappedBelow(mem, owner, root', va', false);
    if va / U.PGSIZE == va' / U.PGSIZE && va % U.PGSIZE == va' % U.PGSIZE { assert va == va'; }
  }

  /** User code reaches user pages only. */
  lemma MappedBelow(mem: Mem, owner: Owners, root: int, va: int, write: bool)
    requires TreesOk(mem, owner, -1, 0) && IsRoot(owner, root) && Guarded(mem, root) && Reaches(mem, root, va, write)
    ensures 0 <= va && va / U.PGSIZE < TRAPFRAME && IsNode(owner, Mapping(mem, root, va / U.PGSIZE).ppn, root, 3, va / U.PGSIZE)
  {
    hide PageBytes, Mapping, TreesOk;
    ReachIs(mem, root, va, write);
    assert va / U.PGSIZE < TRAPFRAME;
    MappedIsOwned(mem, owner, root, va / U.PGSIZE);
  }

  /** Nothing can be reached at va. */
  ghost predicate Unmapped(mem: Mem, root: int, va: int) {
    (forall write :: !Reaches(mem, root, va, write)) && forall a :: !UserMayAt(mem, root, va, a)
  }

  lemma NotMapped(mem: Mem, root: int, va: int)
    requires 0 <= va < U.MAXVA && !(Mapping(mem, root, va / U.PGSIZE).v && Mapping(mem, root, va / U.PGSIZE).u)
    ensures Unmapped(mem, root, va)
  {
    hide PageBytes, Mapping;
    ReachIs(mem, root, va, false);
    ReachIs(mem, root, va, true);
  }

  // ---------------------------------------------------------------- growproc() and fork()

  /** What lies in [0, sz) of an address space of sz bytes can be reached, and beyond its last page nothing can. */
  ghost predicate Ends(mem: Mem, root: int, sz: int) {
    forall va | 0 <= va < U.MAXVA && va / U.PGSIZE * U.PGSIZE >= sz :: Unmapped(mem, root, va)
  }

  lemma SpaceEnds(mem: Mem, owner: Owners, root: int, sz: int)
    requires UserSpace(mem, owner, root, Pages(sz)) && Guarded(mem, root) && 0 <= sz
    ensures Ends(mem, root, sz)
  {
    hide Mapping, Unmapped;
    forall va | 0 <= va < U.MAXVA && va / U.PGSIZE * U.PGSIZE >= sz ensures Unmapped(mem, root, va) {
      assert Pages(sz) <= va / U.PGSIZE < MAXVPN;
      NotMapped(mem, root, va);
    }
  }

  /** growproc() kept address va. */
  lemma KeptByte(mem: Mem, owner: Owners, mem': Mem, owner': Owners, root: int, lo: int, hi: int, va: int)
    requires TreesOk(mem, owner, -1, 0) && TreesOk(mem', owner', -1, 0) && IsRoot(owner, root) && IsRoot(owner', root)
    requires SameMaps(mem, mem', owner, root, lo, hi) && 0 <= va && va / U.PGSIZE < lo && va / U.PGSIZE < TRAPFRAME
    requires SameData(mem, mem', owner) || SameData(mem, mem', owner')
    ensures SameAt(mem, root, mem', root, va)
  {
    hide TreesOk, Mapping, SameAt;
    var e := Mapping(mem, root, va / U.PGSIZE);
    assert Mapping(mem', root, va / U.PGSIZE) == e;
    if e.v {
      MappedIsOwned(mem, owner, root, va / U.PGSIZE);
      MappedIsOwned(mem', owner', root, va / U.PGSIZE);
      InMemory(mem, owner, e.ppn);
      InMemory(mem', owner', e.ppn);
    }
    SameByte(mem, root, mem', root, va);
  }

  lemma InMemory(mem: Mem, owner: Owners, y: int)
    requires TreesOk(mem, owner, -1, 0) && y in owner && owner[y].Node?
    ensures y in mem
  {
    assert Placed(mem, owner, y);
  }

  /** allocproc(): a new address space has no memory of its own yet. */
  method Spawn(k: Kernel, trampoline: int) returns (trapframe: int, root: int)
    requires k.Valid()
    modifies k
    ensures k.Valid() && (root != -1 ==> UserSpace(k.mem, k.owner, root, Pages(0)) && Guarded(k.mem, root) && Ends(k.mem, root, 0))
  {
    hide TreesOk, FreeListOk, Mapping, Ends, SameMaps, SameData, BornWith;
    trapframe, root := k.AllocProc(trampoline);
    if root != -1 { SpaceEnds(k.mem, k.owner, root, 0); }
  }

  /**
   * growproc() as the process sees it: new bytes read as zero, can be read and written by its code, and
   * copied in and out; the bytes that it keeps are as they were; beyond its size nothing can be reached.
   */
  method Grow(k: Kernel, root: int, sz: int, n: int) returns (ok: bool, size: int)
    requires k.Valid() && 0 <= sz && UserSpace(k.mem, k.owner, root, Pages(sz)) && Guarded(k.mem, root) && -0x8000_0000 <= n < 0x8000_0000
    modifies k
    ensures k.Valid() && UserSpace(k.mem, k.owner, root, Pages(size)) && Guarded(k.mem, root)
    ensures size == (if ok && sz + n >= 0 then sz + n else sz) && (n <= 0 ==> ok)
    ensures forall va | sz <= va < size && va / U.PGSIZE * U.PGSIZE >= sz :: Usable(k.mem, root, va) && ByteAt(k.mem, root, va) == 0
    ensures forall va | 0 <= va && va / U.PGSIZE * U.PGSIZE < sz && va / U.PGSIZE * U.PGSIZE < size :: SameAt(old(k.mem), root, k.mem, root, va)
    ensures Ends(k.mem, root, size)
  {
    hide TreesOk, FreeListOk, Mapping, SameAt, Ends, Reaches, UserMayAt, Exchanged, Released, Grown, SameData, SameMaps, ByteAt;
    ghost var m0, o0 := k.mem, k.owner;
    ok, size := k.GrowProc(root, sz, n);
    GuardKept(m0, o0, k.mem, root, Pages(if n < 0 then size else sz), Pages(if n > 0 then size else sz));
    SpaceEnds(k.mem, k.owner, root, size);
    forall va | sz <= va < size && va / U.PGSIZE * U.PGSIZE >= sz ensures Usable(k.mem, root, va) && ByteAt(k.mem, root, va) == 0 {
      assert Pages(sz) <= va / U.PGSIZE < Pages(size);
      HeapPage(k.mem, k.owner, root, va);
    }
    forall va | 0 <= va && va / U.PGSIZE * U.PGSIZE < sz && va / U.PGSIZE * U.PGSIZE < size ensures SameAt(m0, root, k.mem, root, va) {
      assert va / U.PGSIZE < Pages(sz) && va / U.PGSIZE < Pages(size);
      KeptByte(m0, o0, k.mem, k.owner, root, Pages(if n < 0 then size else sz), Pages(if n > 0 then size else sz), va);
    }
  }

  lemma GuardKept(mem: Mem, owner: Owners, mem': Mem, root: int, lo: int, hi: int)
    requires Guarded(mem, root) && IsRoot(owner, root) && SameMaps(mem, mem', owner, root, lo, hi) && hi <= TRAPFRAME
    ensures Guarded(mem', root)
  {
    hide Mapping;
  }

  /**
   * fork() as the two processes see it: every byte of the child's memory is the parent's, with the same access;
   * the parent's memory is as it was.
   */
  method Fork(k: Kernel, src: int, sz: int, trampoline: int) returns (trapframe: int, root: int)
    requires k.Valid() && 0 <= sz && UserSpace(k.mem, k.owner, src, Pages(sz)) && Guarded(k.mem, src)
    modifies k
    ensures k.Valid() && (root != -1 ==> UserSpace(k.mem, k.owner, root, Pages(sz)) && Guarded(k.mem, root) && Ends(k.mem, root, sz))
    ensures root != -1 ==> forall va | 0 <= va && va / U.PGSIZE * U.PGSIZE < sz :: SameAt(old(k.mem), src, k.mem, root, va)
    ensures forall va | 0 <= va && va / U.PGSIZE * U.PGSIZE < sz :: SameAt(old(k.mem), src, k.mem, src, va)
  {
    hide TreesOk, FreeListOk, Mapping, SameAt, Ends, SameMaps, SameData, Copied;
    ghost var m0, o0 := k.mem, k.owner;
    trapframe, root := k.ForkMemory(src, sz, trampoline);
    if root != -1 {
      SpaceEnds(k.mem, k.owner, root, sz);
      forall va | 0 <= va && va / U.PGSIZE * U.PGSIZE < sz ensures SameAt(m0, src, k.mem, root, va) {
        assert va / U.PGSIZE < Pages(sz);
        CopiedByte(m0, o0, k.mem, k.owner, src, root, va);
      }
    }
    ParentStays(m0, o0, k.mem, k.owner, src, root, trapframe);
    forall va | 0 <= va && va / U.PGSIZE * U.PGSIZE < sz ensures SameAt(m0, src, k.mem, src, va) {
      assert va / U.PGSIZE < Pages(sz);
      SameMapsAll(m0, k.mem, o0, src);
      KeptByte(m0, o0, k.mem, k.owner, src, MAXVPN, MAXVPN, va);
    }
  }

  lemma CopiedByte(m0: Mem, o0: Owners, mem: Mem, owner: Owners, src: int, root: int, va: int)
    requires TreesOk(m0, o0, -1, 0) && TreesOk(mem, owner, -1, 0) && IsRoot(o0, src) && IsRoot(owner, root)
    requires 0 <= va && va / U.PGSIZE < TRAPFRAME && Mapping(m0, src, va / U.PGSIZE).v && Copied(m0, mem, owner, src, root, va / U.PGSIZE)
    ensures SameAt(m0, src, mem, root, va)
  {
    hide TreesOk, Mapping, SameAt;
    MappedIsOwned(m0, o0, src, va / U.PGSIZE);
    MappedIsOwned(mem, owner, root, va / U.PGSIZE);
    SameByte(m0, src, mem, root, va);
  }

  lemma SameMapsAll(mem: Mem, mem': Mem, owner: Owners, root: int)
    requires SameMaps(mem, mem', owner, 0, 0, 0)
    ensures SameMaps(mem, mem', owner, root, MAXVPN, MAXVPN)
  {
    hide Mapping;
  }

  lemma ParentStays(m0: Mem, o0: Owners, mem: Mem, owner: Owners, src: int, root: int, trapframe: int)
    requires IsRoot(o0, src) && (if root == -1 then owner == o0 && SameData(m0, mem, o0) else BornWith(m0, o0, mem, owner, root, trapframe))
    ensures IsRoot(owner, src) && SameData(m0, mem, o0)
  {
    hide Mapping;
  }
}
