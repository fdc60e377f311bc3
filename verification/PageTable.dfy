/**
 * The physical page allocator (kalloc.c) and user page tables (vm.c), with the ownership of
 * every allocatable page kept beside them.
 */
module PageTable {
  import opened Machine
  import opened PageOwnership

  datatype Outcome = Done | NoMemory | Panic(msg: string)

  const HEAP: Pte := Pte(0, true, true, true, false, true)     // PTE_R | PTE_W | PTE_U, valid

  /** PGROUNDUP(sz) / PGSIZE. */
  function Pages(sz: int): int {
    (sz + 4095) / 4096
  }

  class Kernel {
    var mem: Mem
    var freelist: seq<int>
    ghost var owner: Owners

    ghost predicate Valid()
      reads this
    {
      Inv(mem, owner, freelist)
    }

    /** kinit(): freerange() hands every page from `end` to PHYSTOP to kfree(). */
    constructor (lo: int, hi: int)
      requires 0 < lo <= hi <= PHYSTOP
      ensures Valid()
      ensures forall p :: p in owner <==> lo <= p < hi
      ensures forall p | lo <= p < hi :: owner[p] == Free
    {
      mem, freelist, owner := map[], [], AllKernel(lo, hi);
      new;
      var p := lo;
      while p < hi
        invariant lo <= p <= hi && Valid()
        invariant forall q :: q in owner <==> lo <= q < hi
        invariant forall q | lo <= q < hi :: owner[q] == if q < p then Free else Kernel
      {
        Kfree(p, -1, 0);
        p := p + 1;
      }
    }

    /** kalloc(): a page for the kernel, filled with junk; -1 if there is none. */
    method Kalloc() returns (p: int)
      requires Valid()
      modifies this
      ensures Valid()
      ensures p == -1 <==> old(freelist) == []
      ensures p == -1 ==> mem == old(mem) && freelist == old(freelist) && owner == old(owner)
      ensures p != -1 ==> p in old(owner) && old(owner)[p] == Free && owner == old(owner)[p := Kernel]
                          && freelist == old(freelist)[1..]
      ensures forall q | q in old(mem) && q != p :: q in mem && mem[q] == old(mem)[q]
      ensures SameMaps(old(mem), mem, owner, 0, 0, 0) && SameData(old(mem), mem, old(owner))
    {
      if freelist == [] { return -1; }
      p := freelist[0];
      assert p in freelist;
      LooseOk(mem, owner, -1, 0, p, seq(512, i => FIVES), Kernel);
      LooseSameMaps(mem, owner, -1, 0, p, seq(512, i => FIVES), 0, 0);
      freelist := freelist[1..];
      mem := mem[p := seq(512, i => FIVES)];
      owner := owner[p := Kernel];
      assert old(freelist) == [p] + freelist;
    }

    /**
     * kfree() of a page that the kernel holds, filled with junk.  Entry hi of table hp may
     * still point to it (uvmunmap() and freewalk() clear the entry afterwards).
     */
    method Kfree(p: int, ghost hp: int, ghost hi: int)
      requires FreeListOk(owner, freelist) && TreesOk(mem, owner, hp, hi) && p in owner && owner[p] == Kernel
      modifies this
      ensures FreeListOk(owner, freelist) && TreesOk(mem, owner, hp, hi)
      ensures owner == old(owner)[p := Free] && freelist == [p] + old(freelist) && mem == old(mem)[p := seq(512, i => ONES)]
    {
      LooseOk(mem, owner, hp, hi, p, seq(512, i => ONES), Free);
      mem := mem[p := seq(512, i => ONES)];
      freelist := [p] + freelist;
      owner := owner[p := Free];
    }

    /**
     * walk(): the bottom-level table for virtual page v, or -1.  With alloc, missing tables are
     * created; no mapping changes in any address space, and failure means memory ran out.
     */
    method Walk(root: int, v: int, alloc: bool) returns (page: int)
      requires Valid() && IsRoot(owner, root) && 0 <= v < MAXVPN
      modifies this
      ensures Valid() && Grown(old(owner), owner, root)
      ensures SameMaps(old(mem), mem, old(owner), 0, 0, 0) && SameData(old(mem), mem, old(owner))
      ensures page != -1 ==> IsNode(owner, page, root, 2, Pre(v, 2)) && Table(mem, page)
      ensures alloc && page == -1 ==> freelist == []
      ensures |freelist| >= |old(freelist)| - 2
      ensures Find(old(mem), root, v, 2) != -1 ==> page == Find(old(mem), root, v, 2) && mem == old(mem)
      ensures !alloc ==> mem == old(mem) && owner == old(owner) && freelist == old(freelist) && page == Find(mem, root, v, 2)
    {
      hide TreesOk, FreeListOk, Mapping, Pre, Px;
      PreZero(v);
      page := root;
      var level := 2;
      while level > 0
        invariant 0 <= level <= 2 && Valid() && IsNode(owner, page, root, 2 - level, Pre(v, 2 - level))
        invariant Grown(old(owner), owner, root) && |freelist| >= |old(freelist)| - (2 - level)
        invariant SameMaps(old(mem), mem, old(owner), 0, 0, 0) && SameData(old(mem), mem, old(owner))
        invariant Find(old(mem), root, v, 2) != -1 ==> mem == old(mem) && owner == old(owner) && page == Find(mem, root, v, 2 - level)
        invariant !alloc ==> mem == old(mem) && owner == old(owner) && freelist == old(freelist) && page == Find(mem, root, v, 2 - level)
      {
        var i := Px(v, 2 - level);
        WalkStep(mem, owner, root, page, v, 2 - level);
        if mem[page][i].v {
          page := mem[page][i].ppn;
        } else if !alloc {
          return -1;
        } else {
          var c := AddTable(root, page, i);
          if c == -1 { return -1; }
          page := c;
        }
        level := level - 1;
      }
      WalkStep(mem, owner, root, page, v, 2);
    }

    /** One allocation inside walk(): a zeroed table under the empty slot i of table p. */
    method AddTable(root: int, p: int, i: int) returns (c: int)
      requires Valid() && IsRoot(owner, root) && p in owner && BelongsTo(owner[p], root) && owner[p].depth < 2
      requires Table(mem, p) && 0 <= i < (if owner[p].depth == 0 then 256 else 512) && !mem[p][i].v
      modifies this
      ensures Valid() && SameMaps(old(mem), mem, old(owner), 0, 0, 0) && SameData(old(mem), mem, old(owner))
      ensures c == -1 ==> freelist == old(freelist) == [] && owner == old(owner) && mem == old(mem)
      ensures c != -1 ==> |freelist| == |old(freelist)| - 1
      ensures c != -1 ==> c in old(owner) && old(owner)[c] == Free
                          && owner == old(owner)[c := Node(root, old(owner)[p].depth + 1, old(owner)[p].prefix * 512 + i, p)]
    {
      hide TreesOk, FreeListOk, Mapping;
      c := Kalloc();
      if c == -1 { return; }
      assert mem[p] == old(mem)[p];
      LinkOk(mem, owner, p, i, c);
      LinkSameMaps(mem, owner, p, i, c);
      TakenFreeList(owner, freelist, c, LinkedOwner(owner, p, i, c)[c]);
      ghost var linked := LinkedMem(mem, p, i, c);
      mem := mem[c := EmptyTable()];
      mem := mem[p := mem[p][i := Link(c)]];
      assert mem == linked;
      owner := LinkedOwner(owner, p, i, c);
    }

    /**
     * One round of mappages(): map virtual page v to page `e.ppn`.  A page below TRAPFRAME
     * comes from the kernel and becomes the address space's.
     */
    method MapPage(root: int, v: int, e: Pte) returns (r: Outcome)
      requires Valid() && IsRoot(owner, root) && 0 <= v < MAXVPN && e.v && e.Leaf()
      requires v < TRAPFRAME ==> e.ppn in owner && owner[e.ppn] == Kernel && e.ppn in mem
      modifies this
      ensures Valid() && SameData(old(mem), mem, old(owner))
      ensures r.Panic? <==> Mapping(old(mem), root, v).v
      ensures r.NoMemory? ==> freelist == []
      ensures |freelist| >= |old(freelist)| - 2
      ensures !r.Done? ==> Grown(old(owner), owner, root) && SameMaps(old(mem), mem, old(owner), 0, 0, 0)
      ensures r.Done? ==> Mapping(mem, root, v) == e && SameMaps(old(mem), mem, old(owner), root, v, v + 1)
      ensures r.Done? ==> if v < TRAPFRAME then IsNode(owner, e.ppn, root, 3, v) && Grown(old(owner), owner[e.ppn := Kernel], root)
                          else Grown(old(owner), owner, root)
    {
      ghost var m0, o0 := mem, owner;
      hide TreesOk, FreeListOk, Mapping, Find, Grown;
      var t;
      t := Walk(root, v, true);
      ghost var m1, o1 := mem, owner;
      GrownFacts(o0, o1, root);
      MappedWasFound(m0, root, v);
      if t == -1 { return NoMemory; }
      MappingAt(mem, owner, t, root, v);
      assert Mapping(m0, root, v) == Mapping(m1, root, v);
      if mem[t][v % 512].v { return Panic("mappages: remap"); }
      SetLeaf(t, v % 512, e);
      WalkThenSet(m0, o0, m1, o1, mem, owner, root, t, v % 512, e.ppn, v);
      return Done;
    }

    lemma MappedWasFound(m: Mem, root: int, v: int)
      requires 0 <= v < MAXVPN
      ensures Mapping(m, root, v).v ==> Find(m, root, v, 2) != -1
    {
    }

    /** *pte = PA2PTE(pa) | perm | PTE_V, on an empty slot of a bottom-level table. */
    method SetLeaf(t: int, i: int, e: Pte)
      requires Valid() && t in owner && owner[t].Node? && owner[t].depth == 2 && IsRoot(owner, owner[t].root)
      requires Table(mem, t) && 0 <= i < 512 && !mem[t][i].v && e.v && e.Leaf() && owner[t].prefix * 512 + i < MAXVPN
      requires owner[t].prefix * 512 + i < TRAPFRAME ==> e.ppn in owner && owner[e.ppn] == Kernel && e.ppn in mem
      modifies this`mem, this`owner
      ensures Valid() && SameData(old(mem), mem, old(owner)) && owner == MappedOwner(old(owner), t, i, e.ppn)
      ensures var root, v := old(owner)[t].root, old(owner)[t].prefix * 512 + i;
              0 <= v && Mapping(mem, root, v) == e && SameMaps(old(mem), mem, old(owner), root, v, v + 1)
    {
      assert Placed(mem, owner, t);
      MapLeafOk(mem, owner, t, i, e);
      hide TreesOk, FreeListOk, Mapping;
      LeafSameMaps(mem, owner, -1, 0, t, i, e);
      LeafWriteMapping(mem, owner, -1, 0, t, i, e, owner[t].root, owner[t].prefix * 512 + i);
      if owner[t].prefix * 512 + i < TRAPFRAME {
        TakenFreeList(owner, freelist, e.ppn, MappedOwner(owner, t, i, e.ppn)[e.ppn]);
      }
      mem := SetEntry(mem, t, i, e);
      owner := MappedOwner(owner, t, i, e.ppn);
    }

    /**
     * One round of uvmunmap(): with do_free the page goes back to the free list, before its
     * entry is cleared.  It panics if there is no table for the page, or no mapping in it.
     */
    method UnmapPage(root: int, v: int, do_free: bool) returns (r: Outcome)
      requires Valid() && IsRoot(owner, root) && 0 <= v < MAXVPN
      requires do_free <==> v < TRAPFRAME
      modifies this
      ensures r == if Find(old(mem), root, v, 2) == -1 then Panic("uvmunmap: walk")
                   else if !Mapping(old(mem), root, v).v then Panic("uvmunmap: not mapped") else Done
      ensures !r.Done? ==> mem == old(mem) && owner == old(owner) && freelist == old(freelist) && !Mapping(mem, root, v).v
      ensures r.Done? ==> Mapping(old(mem), root, v).v && Unmapped(old(mem), old(owner), root, v, do_free)
    {
      MappedWasFound(mem, root, v);
      hide TreesOk, FreeListOk, Mapping, Find;
      var t;
      t := Walk(root, v, false);
      if t == -1 { return Panic("uvmunmap: walk"); }
      MappingAt(mem, owner, t, root, v);
      if !mem[t][v % 512].v { return Panic("uvmunmap: not mapped"); }
      LeafChild(mem, owner, t, v % 512);
      if do_free {
        FreeLeafPage(t, v % 512);
      }
      ClearLeaf(t, v % 512, if do_free then t else -1);
      assert SameMaps(old(mem), mem, old(owner), root, v, v + 1);
      return Done;
    }

    /** Page v of `root`, mapped at (m0, o0), is mapped no more, and its page is free if do_free. */
    ghost predicate Unmapped(m0: Mem, o0: Owners, root: int, v: int, do_free: bool)
      reads this
      requires 0 <= v < MAXVPN
    {
      && Valid() && Mapping(mem, root, v) == ZERO && SameMaps(m0, mem, o0, root, v, v + 1) && SameData(m0, mem, owner)
      && var page := Mapping(m0, root, v).ppn;
         if do_free then IsNode(o0, page, root, 3, v) && owner == o0[page := Free] else owner == o0
    }

    /** kfree(PTE2PA(*pte)), while the entry still points to the page. */
    method FreeLeafPage(t: int, i: int)
      requires Valid() && BottomTable(mem, owner, t) && 0 <= i < 512 && mem[t][i].v && owner[t].prefix * 512 + i < TRAPFRAME
      modifies this
      ensures FreeListOk(owner, freelist) && TreesOk(mem, owner, t, i) && NoChild(owner, t, i)
      ensures owner == old(owner)[old(mem)[t][i].ppn := Free] && BottomTable(mem, owner, t) && owner[t] == old(owner)[t]
      ensures SameMaps(old(mem), mem, old(owner), 0, 0, 0) && SameData(old(mem), mem, owner)
    {
      hide TreesOk, FreeListOk, Mapping;
      var c := mem[t][i].ppn;
      LeafChild(mem, owner, t, i);
      UserPageIsLast(mem, owner, c);
      DetachOk(mem, owner, c);
      ghost var detached := owner[c := Kernel];
      TakenFreeList(owner, freelist, c, Kernel);
      LooseSameMaps(mem, detached, t, i, c, seq(512, i => ONES), 0, 0);
      owner := detached;
      Kfree(c, t, i);
    }

    /** *pte = 0 in a bottom-level table; hp is t if the entry is a loose end, else -1. */
    method ClearLeaf(t: int, i: int, ghost hp: int)
      requires FreeListOk(owner, freelist) && TreesOk(mem, owner, hp, i) && (hp == -1 || hp == t) && NoChild(owner, t, i)
      requires BottomTable(mem, owner, t) && 0 <= i < 512 && IsRoot(owner, owner[t].root) && 0 <= owner[t].prefix * 512 + i < MAXVPN
      modifies this`mem
      ensures Valid() && SameData(old(mem), mem, owner)
      ensures var root, v := owner[t].root, owner[t].prefix * 512 + i;
              Mapping(mem, root, v) == ZERO && SameMaps(old(mem), mem, owner, root, v, v + 1)
    {
      LeafSameMaps(mem, owner, hp, i, t, i, ZERO);
      LeafWriteMapping(mem, owner, hp, i, t, i, ZERO, owner[t].root, owner[t].prefix * 512 + i);
      assert TreesOk(mem, owner, t, i);
      ClearOk(mem, owner, t, i);
      mem := SetEntry(mem, t, i, ZERO);
    }

    /**
     * uvmunmap(): the first k pages of [v, v + n) are unmapped, and their pages are free if do_free.
     * That is the whole range, or up to the first page that was not mapped, and then it panics.
     */
    method UvmUnmap(root: int, v: int, n: int, do_free: bool) returns (r: Outcome, k: int)
      requires Valid() && IsRoot(owner, root) && 0 <= v && 0 <= n && v + n <= MAXVPN
      requires if do_free then v + n <= TRAPFRAME else v >= TRAPFRAME
      modifies this
      ensures Valid() && 0 <= k <= n && (r.Done? <==> k == n) && (r.Done? || r.Panic?)
      ensures !r.Done? ==> !Mapping(old(mem), root, v + k).v
      ensures forall w | v <= w < v + k :: Mapping(old(mem), root, w).v && Mapping(mem, root, w) == ZERO
      ensures SameMaps(old(mem), mem, old(owner), root, v, v + k) && SameData(old(mem), mem, owner)
      ensures if do_free then Released(old(owner), owner, root, v, v + k) else owner == old(owner)
    {
      hide TreesOk, FreeListOk, Mapping;
      k := 0;
      while k < n
        invariant 0 <= k <= n && Valid() && IsRoot(owner, root)
        invariant SameMaps(old(mem), mem, old(owner), root, v, v + k) && SameData(old(mem), mem, owner)
        invariant forall w | v <= w < v + k :: Mapping(old(mem), root, w).v && Mapping(mem, root, w) == ZERO
        invariant if do_free then Released(old(owner), owner, root, v, v + k) else owner == old(owner)
      {
        ghost var m1, o1 := mem, owner;
        assert Mapping(mem, root, v + k) == Mapping(old(mem), root, v + k);
        r := UnmapPage(root, v + k, do_free);
        if !r.Done? { return; }
        if do_free { ReleasedStep(old(owner), o1, m1, root, v, v + k, Mapping(m1, root, v + k).ppn); }
        k := k + 1;
      }
      r := Done;
    }

    /** uvmunmap() of a range that is mapped: the panics are unreachable. */
    method UnmapAll(root: int, v: int, n: int, do_free: bool)
      requires Valid() && IsRoot(owner, root) && 0 <= v && 0 <= n && v + n <= MAXVPN
      requires forall w | v <= w < v + n :: Mapping(mem, root, w).v
      requires if do_free then v + n <= TRAPFRAME else v >= TRAPFRAME
      modifies this
      ensures Valid() && SameMaps(old(mem), mem, old(owner), root, v, v + n) && SameData(old(mem), mem, owner)
      ensures forall w | v <= w < v + n :: Mapping(mem, root, w) == ZERO
      ensures if do_free then Released(old(owner), owner, root, v, v + n) else owner == old(owner)
    {
      hide TreesOk, FreeListOk, Mapping;
      var r, k;
      r, k := UvmUnmap(root, v, n, do_free);
      assert r.Done?;
    }

    /**
     * mappages(): virtual pages [v, v + n) to the n pages from e.ppn.  Done maps exactly that
     * range; otherwise exactly its first k pages are mapped.
     */
    method MapPages(root: int, v: int, n: int, e: Pte) returns (r: Outcome, k: int)
      requires Valid() && IsRoot(owner, root) && 0 <= v && 0 < n && v + n <= MAXVPN && e.v && e.Leaf()
      requires KernelPages(mem, owner, v, e.ppn, n)
      modifies this
      ensures Valid() && 0 <= k <= n && (r.Done? <==> k == n)
      ensures MapsSoFar(old(mem), old(owner), mem, owner, root, v, e, k)
      ensures r.Panic? ==> Mapping(old(mem), root, v + k).v
      ensures r.NoMemory? ==> freelist == []
      ensures |freelist| >= |old(freelist)| - 2 * n
    {
      hide IsRoot, MapsSoFar, Mapping, TreesOk, FreeListOk, KernelPages;
      k := 0;
      ghost var m0, o0 := mem, owner;
      MapsNothing(m0, o0, root, v, e);
      while k < n
        invariant 0 <= k <= n && Valid() && MapsSoFar(m0, o0, mem, owner, root, v, e, k)
        invariant |freelist| >= |old(freelist)| - 2 * k
      {
        FewerKernelPages(m0, o0, v, e.ppn, k + 1, n);
        r := MapRound(root, v, k, e, m0, o0);
        if !r.Done? { return; }
        k := k + 1;
      }
      r := Done;
    }

    /** One round of mappages()'s loop. */
    method MapRound(root: int, v: int, k: int, e: Pte, ghost m0: Mem, ghost o0: Owners) returns (r: Outcome)
      requires Valid() && IsRoot(o0, root) && 0 <= v <= v + k < MAXVPN && 0 <= k && e.v && e.Leaf()
      requires MapsSoFar(m0, o0, mem, owner, root, v, e, k) && KernelPages(m0, o0, v, e.ppn, k + 1)
      modifies this
      ensures Valid() && |freelist| >= |old(freelist)| - 2
      ensures MapsSoFar(m0, o0, mem, owner, root, v, e, if r.Done? then k + 1 else k)
      ensures r.Panic? ==> Mapping(m0, root, v + k).v
      ensures r.NoMemory? ==> freelist == []
    {
      hide TreesOk, FreeListOk, Mapping, Grown, SameData, SameMaps, MapsSoFar, IsRoot, KernelPages;
      ghost var m1, o1 := mem, owner;
      MapsNext(m0, o0, m1, o1, root, v, e, k);
      r := MapPage(root, v + k, e.(ppn := e.ppn + k));
      if r.Done? {
        MapsOneMore(m0, o0, m1, o1, mem, owner, root, v, e, k);
      } else {
        MapsNoMore(m0, o0, m1, o1, mem, owner, root, v, e, k);
      }
    }

    /** uvmdealloc(): sizes in bytes; returns the new size. */
    method UvmDealloc(root: int, oldsz: int, newsz: int) returns (sz: int)
      requires Valid() && IsRoot(owner, root) && 0 <= oldsz && 0 <= newsz && Pages(oldsz) <= TRAPFRAME
      requires forall w | Pages(newsz) <= w < Pages(oldsz) :: Mapping(mem, root, w).v
      modifies this
      ensures Valid() && sz == if newsz < oldsz then newsz else oldsz
      ensures Released(old(owner), owner, root, Pages(sz), Pages(oldsz))
      ensures SameMaps(old(mem), mem, old(owner), root, Pages(sz), Pages(oldsz)) && SameData(old(mem), mem, owner)
      ensures forall w | Pages(sz) <= w < Pages(oldsz) :: Mapping(mem, root, w) == ZERO
      ensures newsz >= oldsz ==> mem == old(mem) && owner == old(owner) && freelist == old(freelist)
    {
      hide TreesOk, FreeListOk, Mapping;
      if newsz >= oldsz { return oldsz; }
      if Pages(newsz) < Pages(oldsz) {
        UnmapAll(root, Pages(newsz), Pages(oldsz) - Pages(newsz), true);
      }
      return newsz;
    }

    /** The body of the loops in uvmalloc() and uvmcopy(): kalloc, fill, mappages, and kfree on failure. */
    method AddUserPage(root: int, v: int, flags: Pte, content: seq<Pte>) returns (ok: bool)
      requires Valid() && IsRoot(owner, root) && 0 <= v < TRAPFRAME && !Mapping(mem, root, v).v
      requires flags.v && flags.Leaf()
      modifies this
      ensures Valid() && Grown(old(owner), owner, root) && SameData(old(mem), mem, old(owner))
      ensures SameMaps(old(mem), mem, old(owner), root, v, if ok then v + 1 else v)
      ensures ok ==> Holds(mem, owner, root, v, flags, content)
      ensures if ok then |freelist| >= |old(freelist)| - 3 else |old(freelist)| <= 3
    {
      hide TreesOk, FreeListOk, Mapping, SameMaps, SameData, Grown, Holds, IsRoot;
      ghost var o0, m0 := owner, mem;
      NothingGrown(o0, root);
      var page, r;
      page := Kalloc();
      if page == -1 {
        NothingFilled(m0, o0, root, v);
        return false;
      }
      ghost var o1, m1 := owner, mem;
      FillPage(page, content);
      ghost var m2 := mem;
      PageFilled(m0, o0, m1, m2, root, v, page, content);
      r := MapPage(root, v, flags.(ppn := page));
      if r.Done? {
        PageMapped(m0, o0, m2, o1, mem, owner, root, v, page, flags, content);
        return true;
      }
      ghost var m3, o3 := mem, owner;
      PageNotMapped(m0, o0, m2, o1, m3, o3, root, v, page, seq(512, i => ONES));
      FreePage(page);
      return false;
    }

    /** kfree() when no entry points to the page: no mapping changes. */
    method FreePage(page: int)
      requires Valid() && page in owner && owner[page] == Kernel
      modifies this
      ensures Valid() && owner == old(owner)[page := Free] && mem == old(mem)[page := seq(512, i => ONES)]
      ensures SameMaps(old(mem), mem, old(owner), 0, 0, 0)
    {
      LooseSameMaps(mem, owner, -1, 0, page, seq(512, i => ONES), 0, 0);
      hide TreesOk, FreeListOk, Mapping;
      Kfree(page, -1, 0);
    }

    /** memset() or memmove() into a page that the kernel holds. */
    method FillPage(page: int, content: seq<Pte>)
      requires Valid() && page in owner && owner[page] == Kernel
      modifies this`mem
      ensures Valid() && mem == old(mem)[page := content] && SameMaps(old(mem), mem, owner, 0, 0, 0)
    {
      LooseOk(mem, owner, -1, 0, page, content, Kernel);
      LooseSameMaps(mem, owner, -1, 0, page, content, 0, 0);
      assert owner[page := Kernel] == owner;
      mem := mem[page := content];
    }

    /**
     * uvmalloc(): grow from oldsz to newsz bytes.  On success every new page is zeroed and mapped;
     * when memory runs out the result is 0 and every mapping is what it was.  It runs out before the
     * trapframe's page is reached, and not while there are three free pages per page to be added
     * (two of them for tables).
     */
    method UvmAlloc(root: int, oldsz: int, newsz: int, perm: Pte) returns (sz: int)
      requires Valid() && IsRoot(owner, root) && 0 <= oldsz && 0 <= newsz && Pages(oldsz) <= TRAPFRAME
      requires forall w | 0 <= w < Pages(oldsz) :: Mapping(mem, root, w).v
      requires forall w | Pages(oldsz) <= w < Pages(newsz) && w < TRAPFRAME :: !Mapping(mem, root, w).v
      requires perm.v && perm.Leaf()
      modifies this
      ensures Valid() && (sz == 0 || sz == if newsz < oldsz then oldsz else newsz) && (sz != 0 ==> Pages(sz) < PHYSTOP)
      ensures sz == 0 && newsz > 0 ==> |old(freelist)| <= 3 * (Pages(newsz) - Pages(oldsz))
      ensures sz != 0 ==> Unharmed(old(mem), old(owner), mem, owner, root, Pages(oldsz), Pages(sz))
      ensures sz != 0 ==> forall w | Pages(oldsz) <= w < Pages(sz) :: Holds(mem, owner, root, w, perm, EmptyTable())
      ensures sz == 0 ==> Unharmed(old(mem), old(owner), mem, owner, root, 0, 0)
    {
      hide TreesOk, FreeListOk, Mapping, Unharmed, IsRoot, Holds, Pages;
      ghost var m0, o0 := mem, owner;
      PagesBound(oldsz, oldsz);
      MemoryFits(m0, o0, root, Pages(oldsz));
      if newsz < oldsz {
        UnharmedRefl(m0, o0, root, Pages(oldsz));
        return oldsz;
      }
      PagesBound(oldsz, newsz);
      UnharmedRefl(m0, o0, root, Pages(oldsz));
      var lo, v, ok := Pages(oldsz), Pages(oldsz), true;
      while v * 4096 < newsz
        invariant 0 <= lo <= v <= Pages(newsz) && v < PHYSTOP && Valid() && Growing(m0, o0, root, lo, v, perm)
        invariant |freelist| >= |old(freelist)| - 3 * (v - lo)
        decreases newsz - v * 4096
      {
        PagesBound(oldsz, newsz);
        ok := UvmAllocPage(root, v, perm, m0, o0, lo);
        if !ok {
          return 0;
        }
        v := v + 1;
        GrowingFits(m0, o0, root, lo, v, perm);
      }
      PagesBound(oldsz, newsz);
      return newsz;
    }

    lemma PagesBound(oldsz: int, newsz: int)
      requires 0 <= oldsz <= newsz
      ensures 0 == Pages(0) <= Pages(oldsz) <= Pages(newsz)
      ensures forall v :: v * 4096 < newsz <==> v < Pages(newsz)
    {
    }

    /** uvmalloc() has got from lo to v. */
    ghost predicate Growing(m0: Mem, o0: Owners, root: int, lo: int, v: int, perm: Pte)
      reads this
      requires 0 <= lo && v <= MAXVPN
    {
      && IsRoot(owner, root) && Unharmed(m0, o0, mem, owner, root, lo, v)
      && forall w | lo <= w < v :: Holds(mem, owner, root, w, perm, EmptyTable())
    }

    lemma GrowingFits(m0: Mem, o0: Owners, root: int, lo: int, v: int, perm: Pte)
      requires 0 <= lo <= v <= TRAPFRAME && Valid() && IsRoot(o0, root) && perm.v && Growing(m0, o0, root, lo, v, perm)
      requires forall w | 0 <= w < lo :: Mapping(m0, root, w).v
      ensures v < PHYSTOP
    {
      hide TreesOk, FreeListOk, Mapping;
      forall w | 0 <= w < v ensures Mapping(mem, root, w).v {
        assert w >= lo ==> Holds(mem, owner, root, w, perm, EmptyTable());
      }
      MemoryFits(mem, owner, root, v);
    }

    /** One round of uvmalloc()'s loop; on failure everything done so far is undone. */
    method UvmAllocPage(root: int, v: int, perm: Pte, ghost m0: Mem, ghost o0: Owners, lo: int) returns (ok: bool)
      requires Valid() && TreesOk(m0, o0, -1, 0) && IsRoot(o0, root) && 0 <= lo <= v < TRAPFRAME && perm.v && perm.Leaf()
      requires Growing(m0, o0, root, lo, v, perm) && forall w | lo <= w <= v :: !Mapping(m0, root, w).v
      modifies this
      ensures Valid()
      ensures ok ==> Growing(m0, o0, root, lo, v + 1, perm) && |freelist| >= |old(freelist)| - 3
      ensures !ok ==> |old(freelist)| <= 3
      ensures !ok ==> Unharmed(m0, o0, mem, owner, root, 0, 0)
    {
      hide TreesOk, FreeListOk, Mapping, Unharmed, IsRoot;
      ghost var m1, o1 := mem, owner;
      UnharmedFacts(m0, o0, m1, o1, root, lo, v);
      ok := AddUserPage(root, v, perm, EmptyTable());
      ghost var next := if ok then v + 1 else v;
      UnharmedStep(m0, o0, m1, o1, mem, owner, root, lo, v, next);
      HeldStay(m1, o1, mem, owner, root, lo, v, next, perm, EmptyTable());
      UnharmedFacts(m0, o0, mem, owner, root, lo, next);
      if !ok {
        assert Pages(v * 4096) == v && Pages(lo * 4096) == lo;
        forall w | lo <= w < v ensures Mapping(mem, root, w).v { assert Holds(mem, owner, root, w, perm, EmptyTable()); }
        Rollback(root, v * 4096, lo * 4096, m0, o0);
      }
    }

    /** The way out of uvmalloc() and uvmcopy(): unmap and free what was mapped since (m0, o0). */
    method Rollback(root: int, a: int, oldsz: int, ghost m0: Mem, ghost o0: Owners)
      requires Valid() && TreesOk(m0, o0, -1, 0) && IsRoot(o0, root) && 0 <= oldsz <= a && Pages(a) <= TRAPFRAME
      requires Unharmed(m0, o0, mem, owner, root, Pages(oldsz), Pages(a))
      requires forall w | Pages(oldsz) <= w < Pages(a) :: !Mapping(m0, root, w).v && Mapping(mem, root, w).v
      modifies this
      ensures Valid() && Unharmed(m0, o0, mem, owner, root, 0, 0)
    {
      hide TreesOk, FreeListOk, Mapping, Grown, SameData, Released;
      ghost var m1, o1 := mem, owner;
      var sz;
      sz := UvmDealloc(root, a, oldsz);
      UnharmedUndone(m0, o0, m1, o1, mem, owner, root, Pages(oldsz), Pages(a));
    }

    /** uvmcopy() has copied virtual pages [0, v) of `src`, as they were at m0, to `dst`. */
    ghost predicate Copying(m0: Mem, o0: Owners, src: int, dst: int, v: int)
      reads this
      requires 0 <= v <= MAXVPN
    {
      && IsRoot(owner, dst) && Unharmed(m0, o0, mem, owner, dst, 0, v)
      && forall w | 0 <= w < v :: Copied(m0, mem, owner, src, dst, w)
    }

    /** One round of uvmcopy()'s loop; on failure everything done so far is undone. */
    method UvmCopyPage(src: int, dst: int, v: int, ghost m0: Mem, ghost o0: Owners) returns (ok: bool)
      requires Valid() && TreesOk(m0, o0, -1, 0) && IsRoot(o0, src) && IsRoot(o0, dst) && src != dst && 0 <= v < TRAPFRAME
      requires Mapping(m0, src, v).v && Copying(m0, o0, src, dst, v) && forall w | 0 <= w <= v :: !Mapping(m0, dst, w).v
      requires forall w | 0 <= w <= v :: Mapping(m0, src, w).v
      modifies this
      ensures Valid()
      ensures ok ==> Copying(m0, o0, src, dst, v + 1) && |freelist| >= |old(freelist)| - 3
      ensures !ok ==> |old(freelist)| <= 3
      ensures !ok ==> Unharmed(m0, o0, mem, owner, dst, 0, 0)
    {
      hide TreesOk, FreeListOk, Mapping, Unharmed, Copied, Grown, SameData;
      ghost var m1, o1 := mem, owner;
      UnharmedSource(m0, o0, m1, o1, src, dst, v);
      UnharmedFacts(m0, o0, m1, o1, dst, 0, v);
      var pte;
      pte := ReadPte(src, v);
      ok := AddUserPage(dst, v, pte, mem[pte.ppn]);
      ghost var next := if ok then v + 1 else v;
      UnharmedStep(m0, o0, m1, o1, mem, owner, dst, 0, v, next);
      CopiedStay(m0, m1, o1, mem, owner, src, dst, v, next);
      UnharmedFacts(m0, o0, mem, owner, dst, 0, next);
      if ok {
        CopiedNow(m0, mem, owner, src, dst, v, pte);
      } else {
        assert Pages(v * 4096) == v;
        CopiedMapped(m0, mem, owner, src, dst, v);
        Rollback(dst, v * 4096, 0, m0, o0);
      }
    }

    /** walk(old, i, 0) and the entry there. */
    method ReadPte(root: int, v: int) returns (e: Pte)
      requires Valid() && IsRoot(owner, root) && 0 <= v < MAXVPN && Mapping(mem, root, v).v
      modifies this
      ensures mem == old(mem) && owner == old(owner) && freelist == old(freelist)
      ensures e == Mapping(mem, root, v) && e.Leaf()
    {
      hide TreesOk, FreeListOk, Mapping, Find;
      MappedWasFound(mem, root, v);
      var t;
      t := Walk(root, v, false);
      MappingAt(mem, owner, t, root, v);
      LeafChild(mem, owner, t, v % 512);
      e := mem[t][v % 512];
    }

    /**
     * uvmcopy(): give `dst` its own copy of the first sz bytes of `src`, page by page and with
     * the same permissions; when memory runs out every mapping is what it was.  It does not run
     * out while there are three free pages per page to be copied.
     */
    method UvmCopy(src: int, dst: int, sz: int) returns (ok: bool)
      requires Valid() && IsRoot(owner, src) && IsRoot(owner, dst) && src != dst && 0 <= sz && Pages(sz) <= TRAPFRAME
      requires forall w | 0 <= w < Pages(sz) :: Mapping(mem, src, w).v
      requires forall w | 0 <= w < Pages(sz) :: !Mapping(mem, dst, w).v
      modifies this
      ensures Valid()
      ensures ok ==> Unharmed(old(mem), old(owner), mem, owner, dst, 0, Pages(sz))
      ensures ok ==> forall w | 0 <= w < Pages(sz) :: Copied(old(mem), mem, owner, src, dst, w)
      ensures !ok ==> Unharmed(old(mem), old(owner), mem, owner, dst, 0, 0)
      ensures !ok ==> |old(freelist)| <= 3 * Pages(sz)
    {
      hide TreesOk, FreeListOk, Mapping, Unharmed, IsRoot, Copied, Pages;
      ghost var m0, o0 := mem, owner;
      PagesBound(0, sz);
      UnharmedRefl(m0, o0, dst, 0);
      var v := 0;
      while v * 4096 < sz
        invariant 0 <= v <= Pages(sz) && Valid() && Copying(m0, o0, src, dst, v)
        invariant |freelist| >= |old(freelist)| - 3 * v
        decreases sz - v * 4096
      {
        PagesBound(0, sz);
        ok := UvmCopyPage(src, dst, v, m0, o0);
        if !ok {
          return false;
        }
        v := v + 1;
      }
      PagesBound(0, sz);
      return true;
    }

    /**
     * freewalk(): free table p and all tables below it.  No leaf entry is left, so the panic
     * is unreachable; the entry that pointed to p is left for the caller to clear.
     */
    method FreeWalk(p: int)
      requires Valid() && IsTable(owner, p) && NoLeaves(mem, owner, owner[p].root)
      modifies this
      ensures FreeListOk(owner, freelist) && Felled(old(mem), old(owner), mem, owner, p)
      decreases 3 - owner[p].depth
    {
      ghost var m0, o0 := mem, owner;
      FellingStarts(m0, o0, p);
      hide TreesOk, FreeListOk, NoLeaves, Pruned, Untouched, Felled;
      var i := 0;
      while i < 512
        invariant 0 <= i <= 512 && FreeListOk(owner, freelist) && Felling(m0, o0, mem, owner, p, i)
        decreases 512 - i
      {
        var pte := mem[p][i];
        if pte.v && !pte.Leaf() {
          ghost var m1, o1 := mem, owner;
          FellingChild(m0, o0, mem, owner, p, i);
          FreeWalk(pte.ppn);
          FellingStep(m0, o0, m1, o1, mem, owner, p, i);
          mem := SetEntry(mem, p, i, ZERO);
        } else if pte.v {
          FellingChild(m0, o0, mem, owner, p, i);
          assert false;
        } else {
          FellingSkips(m0, o0, mem, owner, p, i);
        }
        i := i + 1;
      }
      FreeTable(p, m0, o0);
    }

    /** kfree((void*)pagetable) at the end of freewalk(), when all its entries are clear. */
    method FreeTable(p: int, ghost m0: Mem, ghost o0: Owners)
      requires p in o0 && o0[p].Node? && FreeListOk(owner, freelist) && Felling(m0, o0, mem, owner, p, 512)
      modifies this
      ensures FreeListOk(owner, freelist) && Felled(m0, o0, mem, owner, p)
    {
      hide TreesOk, FreeListOk, NoLeaves, Pruned, Untouched, Felled;
      ghost var m1, o1 := mem, owner;
      FellingDetach(m0, o0, m1, o1, p, seq(512, i => ONES));
      TakenFreeList(o1, freelist, p, Kernel);
      owner := o1[p := Kernel];
      Kfree(p, if o0[p].depth == 0 then -1 else o0[p].parent, o0[p].prefix % 512);
      assert owner == o1[p := Free];
    }

    /** uvmcreate(): an empty address space, or -1. */
    method UvmCreate() returns (root: int)
      requires Valid()
      modifies this
      ensures Valid() && (root == -1 <==> old(freelist) == [])
      ensures root == -1 ==> owner == old(owner) && mem == old(mem)
      ensures root != -1 ==> Born(old(mem), old(owner), mem, owner, root) && |freelist| == |old(freelist)| - 1
      ensures root != -1 ==> forall v | 0 <= v < MAXVPN :: Mapping(mem, root, v) == ZERO
    {
      hide TreesOk, FreeListOk, Mapping;
      root := Kalloc();
      if root == -1 { return; }
      FillPage(root, EmptyTable());
      RootOk(mem, owner, root);
      forall v | 0 <= v < MAXVPN ensures Mapping(mem, root, v) == ZERO { EmptyRootMaps(mem, root, v); }
      assert mem[root := EmptyTable()] == mem;
      TakenFreeList(owner, freelist, root, Node(root, 0, 0, -1));
      owner := owner[root := Node(root, 0, 0, -1)];
    }

    /** uvmfree(): free sz bytes of user memory, then all tables; nothing of the space is left. */
    method UvmFree(root: int, sz: int)
      requires Valid() && IsRoot(owner, root) && 0 <= sz && Pages(sz) <= TRAPFRAME
      requires forall v | 0 <= v < MAXVPN :: Mapping(mem, root, v).v <==> v < Pages(sz)
      modifies this
      ensures Valid() && Gone(old(owner), owner, root)
      ensures SameMaps(old(mem), mem, old(owner), root, 0, MAXVPN) && SameData(old(mem), mem, owner)
    {
      hide TreesOk, FreeListOk, Mapping;
      ghost var m0, o0 := mem, owner;
      if sz > 0 {
        UnmapAll(root, 0, Pages(sz), true);
      }
      ghost var m1, o1 := mem, owner;
      assert Released(o0, o1, root, 0, Pages(sz));
      NothingMapped(m1, o1, root);
      FreeWalk(root);
      GoneAfter(o0, o1, owner, root, 0, Pages(sz));
      FelledRest(m1, o1, mem, owner, root);
    }

    /** mappages() of one page at or above TRAPFRAME, in an address space made since (m0, o0). */
    method MapAbove(root: int, v: int, e: Pte, ghost m0: Mem, ghost o0: Owners) returns (ok: bool)
      requires Valid() && Born(m0, o0, mem, owner, root) && TRAPFRAME <= v < MAXVPN && e.v && e.Leaf() && !Mapping(mem, root, v).v
      modifies this
      ensures Valid() && Born(m0, o0, mem, owner, root)
      ensures SameMaps(old(mem), mem, old(owner), root, v, if ok then v + 1 else v)
      ensures ok ==> Mapping(mem, root, v) == e
      ensures !ok ==> freelist == []
      ensures |freelist| >= |old(freelist)| - 2
    {
      hide TreesOk, FreeListOk, Mapping, Assigned, Born, IsRoot;
      ghost var m1, o1 := mem, owner;
      BornFacts(m0, o0, m1, o1, root);
      var r, k;
      r, k := MapPages(root, v, 1, e);
      assert k == 1 ==> Mapping(mem, root, v) == e.(ppn := e.ppn);
      AssignedAbove(o1, owner, root, v, e.ppn, k);
      BornGrows(m0, o0, m1, o1, mem, owner, root, v, v + k);
      ok := r.Done?;
    }

    /** uvmfree(pagetable, 0) of an address space made since (m0, o0) that maps nothing. */
    method Abandon(root: int, ghost m0: Mem, ghost o0: Owners)
      requires Valid() && TreesOk(m0, o0, -1, 0) && Born(m0, o0, mem, owner, root)
      requires forall v | 0 <= v < MAXVPN :: !Mapping(mem, root, v).v
      modifies this
      ensures Valid() && owner == o0 && SameMaps(m0, mem, o0, 0, 0, 0) && SameData(m0, mem, o0)
    {
      hide TreesOk, FreeListOk, Mapping, Born, IsRoot, Gone;
      ghost var m1, o1 := mem, owner;
      BornFacts(m0, o0, m1, o1, root);
      UvmFree(root, 0);
      BornDies(m0, o0, m1, o1, mem, owner, root);
    }

    /**
     * proc_pagetable(): an address space with only the trampoline and the trapframe mapped.
     * On failure (-1) every page is owned as before; that happens only with 5 free pages or fewer.
     */
    method ProcPagetable(trampoline: int, trapframe: int) returns (root: int)
      requires Valid()
      modifies this
      ensures Valid()
      ensures root == -1 ==> owner == old(owner) && SameMaps(old(mem), mem, old(owner), 0, 0, 0) && SameData(old(mem), mem, old(owner))
      ensures root != -1 ==> Born(old(mem), old(owner), mem, owner, root) && UserSpace(mem, owner, root, 0)
      ensures if root == -1 then |old(freelist)| <= 5 else |freelist| >= |old(freelist)| - 5
      ensures root != -1 ==> Mapping(mem, root, TRAMPOLINE) == Pte(trampoline, true, true, false, true, false)
      ensures root != -1 ==> Mapping(mem, root, TRAPFRAME) == Pte(trapframe, true, true, true, false, false)
    {
      hide TreesOk, FreeListOk, Mapping, Born, IsRoot;
      ghost var m0, o0 := mem, owner;
      var ok;
      root := UvmCreate();
      if root == -1 { return; }
      BornFacts(m0, o0, mem, owner, root);
      ok := MapAbove(root, TRAMPOLINE, Pte(trampoline, true, true, false, true, false), m0, o0);
      BornFacts(m0, o0, mem, owner, root);
      if !ok {
        Abandon(root, m0, o0);
        return -1;
      }
      ok := MapAbove(root, TRAPFRAME, Pte(trapframe, true, true, true, false, false), m0, o0);
      BornFacts(m0, o0, mem, owner, root);
      if !ok {
        UndoTrampoline(root, m0, o0);
        return -1;
      }
    }

    method UndoTrampoline(root: int, ghost m0: Mem, ghost o0: Owners)
      requires Valid() && TreesOk(m0, o0, -1, 0) && Born(m0, o0, mem, owner, root)
      requires forall v | 0 <= v < MAXVPN :: Mapping(mem, root, v).v <==> v == TRAMPOLINE
      modifies this
      ensures Valid() && owner == o0 && SameMaps(m0, mem, o0, 0, 0, 0) && SameData(m0, mem, o0)
    {
      hide TreesOk, FreeListOk, Mapping, Born, IsRoot, Grown;
      ghost var m1, o1 := mem, owner;
      BornFacts(m0, o0, m1, o1, root);
      UnmapAll(root, TRAMPOLINE, 1, false);
      NothingGrown(o1, root);
      BornGrows(m0, o0, m1, o1, mem, owner, root, TRAMPOLINE, TRAMPOLINE + 1);
      Abandon(root, m0, o0);
    }

    /** proc_freepagetable(): nothing of the address space is left. */
    method ProcFreePagetable(root: int, sz: int)
      requires Valid() && 0 <= sz && UserSpace(mem, owner, root, Pages(sz))
      modifies this
      ensures Valid() && Gone(old(owner), owner, root)
      ensures SameMaps(old(mem), mem, old(owner), root, 0, MAXVPN) && SameData(old(mem), mem, owner)
    {
      hide TreesOk, FreeListOk, Mapping, IsRoot;
      UnmapAll(root, TRAMPOLINE, 1, false);
      UnmapAll(root, TRAPFRAME, 1, false);
      UvmFree(root, sz);
    }

    /**
     * growproc(): the new size, or the old one and a failure, after which the same pages are mapped.
     * A shrink below zero wraps to a huge size, which uvmdealloc() takes for growth: nothing changes.
     */
    method GrowProc(root: int, sz: int, n: int) returns (ok: bool, size: int)
      requires Valid() && 0 <= sz && UserSpace(mem, owner, root, Pages(sz)) && -0x8000_0000 <= n < 0x8000_0000
      modifies this
      ensures Valid() && size == if ok && sz + n >= 0 then sz + n else sz
      ensures !ok ==> n > 0 && |old(freelist)| <= 3 * (Pages(sz + n) - Pages(sz))
      ensures UserSpace(mem, owner, root, Pages(size)) && Exchanged(old(owner), owner, root)
      ensures SameMaps(old(mem), mem, old(owner), root, Pages(if n < 0 then size else sz), Pages(if n > 0 then size else sz))
      ensures n >= 0 ==> Grown(old(owner), owner, root) && SameData(old(mem), mem, old(owner))
      ensures n > 0 && ok ==> forall w | Pages(sz) <= w < Pages(size) :: Holds(mem, owner, root, w, HEAP, EmptyTable())
      ensures n < 0 ==> Released(old(owner), owner, root, Pages(size), Pages(sz)) && SameData(old(mem), mem, owner)
      ensures n == 0 || sz + n < 0 ==> mem == old(mem) && owner == old(owner) && freelist == old(freelist)
    {
      hide TreesOk, FreeListOk, Mapping, Pages;
      SizeFits(sz);
      if n > 0 {
        PagesBound(sz, sz + n);
        size := UvmAlloc(root, sz, sz + n, HEAP);
        GrownFacts(old(owner), owner, root);
        if size == 0 { return false, sz; }
        GrewTo(root, Pages(sz), Pages(size), HEAP);
      } else if n < 0 {
        var newsz := if sz + n < 0 then sz + n + U64 else sz + n;
        if newsz < sz { PagesBound(newsz, sz); } else { PagesBound(sz, newsz); }
        size := UvmDealloc(root, sz, newsz);
        ReleasedExchanged(old(owner), owner, root, Pages(size), Pages(sz));
      } else {
        size := sz;
      }
      ok := true;
    }

    lemma SizeFits(sz: int)
      requires 0 <= sz && Pages(sz) <= TRAPFRAME
      ensures 2 * sz < U64
    {
    }

    lemma GrewTo(root: int, lo: int, hi: int, perm: Pte)
      requires 0 <= lo <= hi <= TRAPFRAME && perm.v
      requires forall w | lo <= w < hi :: Holds(mem, owner, root, w, perm, EmptyTable())
      ensures forall w | lo <= w < hi :: Mapping(mem, root, w).v
    {
      forall w | lo <= w < hi ensures Mapping(mem, root, w).v { assert Holds(mem, owner, root, w, perm, EmptyTable()); }
    }

    /** The pages of allocproc(): a trapframe and an address space.  On failure no page has changed hands. */
    method AllocProc(trampoline: int) returns (trapframe: int, root: int)
      requires Valid()
      modifies this
      ensures Valid()
      ensures root == -1 ==> owner == old(owner) && SameMaps(old(mem), mem, old(owner), 0, 0, 0) && SameData(old(mem), mem, old(owner))
      ensures root != -1 ==> BornWith(old(mem), old(owner), mem, owner, root, trapframe) && UserSpace(mem, owner, root, 0)
      ensures root != -1 ==> Mapping(mem, root, TRAMPOLINE) == Pte(trampoline, true, true, false, true, false)
      ensures root != -1 ==> Mapping(mem, root, TRAPFRAME) == Pte(trapframe, true, true, true, false, false)
      ensures if root == -1 then |old(freelist)| <= 6 else |freelist| >= |old(freelist)| - 6
    {
      hide TreesOk, FreeListOk, Mapping, Born;
      ghost var m0, o0 := mem, owner;
      root := -1;
      trapframe := Kalloc();
      if trapframe == -1 { return; }
      ghost var m1, o1 := mem, owner;
      root := ProcPagetable(trampoline, trapframe);
      if root == -1 {
        FreePage(trapframe);
        assert owner == o0;
        return;
      }
      TrapframeFirst(m0, o0, m1, mem, owner, root, trapframe);
    }

    /** The pages of freeproc(): the trapframe, though still mapped, goes first. */
    method FreeProc(trapframe: int, root: int, sz: int)
      requires Valid() && 0 <= sz && UserSpace(mem, owner, root, Pages(sz)) && trapframe in owner && owner[trapframe] == Kernel
      modifies this
      ensures Valid() && Gone(old(owner)[trapframe := Free], owner, root)
      ensures SameMaps(old(mem), mem, old(owner), root, 0, MAXVPN) && SameData(old(mem), mem, owner)
    {
      hide TreesOk, FreeListOk, Mapping;
      FreePage(trapframe);
      ProcFreePagetable(root, sz);
    }

    /**
     * A whole life: allocproc(), growproc() by each of `ns`, freeproc().  Whatever fails on the way,
     * in the end every page is owned as before and no other address space has noticed.
     */
    method Life(trampoline: int, ns: seq<int>) returns (born: bool)
      requires Valid() && forall k | 0 <= k < |ns| :: -0x8000_0000 <= ns[k] < 0x8000_0000
      modifies this
      ensures Valid() && owner == old(owner) && SameMaps(old(mem), mem, old(owner), 0, 0, 0) && SameData(old(mem), mem, old(owner))
      ensures |old(freelist)| > 6 ==> born
    {
      hide TreesOk, FreeListOk, Mapping, BornWith, SameMaps, SameData, UserSpace, Exchanged, Released, Grown, Pages;
      ghost var m0, o0 := mem, owner;
      var trapframe, root;
      trapframe, root := AllocProc(trampoline);
      if root == -1 { return false; }
      var sz, k, ok := 0, 0, true;
      PagesBound(0, 0);
      while k < |ns|
        invariant 0 <= k <= |ns| && Valid() && 0 <= sz && UserSpace(mem, owner, root, Pages(sz))
        invariant BornWith(m0, o0, mem, owner, root, trapframe)
      {
        ghost var m1, o1, before := mem, owner, sz;
        ok, sz := GrowProc(root, sz, ns[k]);
        BornWithExchanged(m0, o0, m1, o1, mem, owner, root, trapframe,
                          Pages(if ns[k] < 0 then sz else before), Pages(if ns[k] > 0 then sz else before));
        k := k + 1;
      }
      FreeNewProc(trapframe, root, sz, m0, o0);
      return true;
    }

    /** freeproc() of a process made since (m0, o0). */
    method FreeNewProc(trapframe: int, root: int, sz: int, ghost m0: Mem, ghost o0: Owners)
      requires Valid() && TreesOk(m0, o0, -1, 0) && BornWith(m0, o0, mem, owner, root, trapframe)
      requires 0 <= sz && UserSpace(mem, owner, root, Pages(sz))
      modifies this
      ensures Valid() && owner == o0 && SameMaps(m0, mem, o0, 0, 0, 0) && SameData(m0, mem, o0)
    {
      hide TreesOk, FreeListOk, Mapping, Gone, Born;
      ghost var m1, o1 := mem, owner;
      FreeProc(trapframe, root, sz);
      BornWithDies(m0, o0, m1, o1, mem, owner, root, trapframe);
    }

    /**
     * The memory side of fork(): the child has its own copy of all user memory, or nothing has
     * changed hands; the parent's address space, and every other, is mapped as before.
     */
    method ForkMemory(src: int, sz: int, trampoline: int) returns (trapframe: int, root: int)
      requires Valid() && 0 <= sz && UserSpace(mem, owner, src, Pages(sz))
      modifies this
      ensures Valid() && SameMaps(old(mem), mem, old(owner), 0, 0, 0)
      ensures root == -1 ==> owner == old(owner) && SameData(old(mem), mem, old(owner))
      ensures root != -1 ==> && UserSpace(mem, owner, root, Pages(sz))
                             && (forall w | 0 <= w < Pages(sz) :: Copied(old(mem), mem, owner, src, root, w))
                             && BornWith(old(mem), old(owner), mem, owner, root, trapframe)
      ensures root == -1 ==> |old(freelist)| <= 6 + 3 * Pages(sz)
      ensures root != -1 ==> Mapping(mem, root, TRAMPOLINE) == Pte(trampoline, true, true, false, true, false)
      ensures root != -1 ==> Mapping(mem, root, TRAPFRAME) == Pte(trapframe, true, true, true, false, false)
    {
      hide TreesOk, FreeListOk, Mapping, BornWith, Unharmed, Copied;
      ghost var m0, o0 := mem, owner;
      trapframe, root := AllocProc(trampoline);
      if root == -1 { return; }
      ghost var m1, o1 := mem, owner;
      BornWithFacts(m0, o0, m1, o1, root, trapframe);
      var ok;
      ok := UvmCopy(src, root, sz);
      ghost var m2, o2 := mem, owner;
      BornWithGrows(m0, o0, m1, o1, m2, o2, root, trapframe, 0, if ok then Pages(sz) else 0);
      BornWithFacts(m0, o0, m2, o2, root, trapframe);
      CopyLooksLike(m1, o1, src, root, if ok then Pages(sz) else 0);
      if ok {
        AboveStays(m1, o1, root, Pages(sz), TRAMPOLINE);
        AboveStays(m1, o1, root, Pages(sz), TRAPFRAME);
        forall w | 0 <= w < Pages(sz) ensures Copied(m0, m2, o2, src, root, w) { CopiedSince(m0, o0, m1, m2, o2, src, root, w); }
      } else {
        FreeNewProc(trapframe, root, 0, m0, o0);
        root := -1;
      }
    }

    lemma AboveStays(m1: Mem, o1: Owners, root: int, pages: int, v: int)
      requires IsRoot(o1, root) && Unharmed(m1, o1, mem, owner, root, 0, pages) && pages <= v < MAXVPN && 0 <= v
      ensures Mapping(mem, root, v) == Mapping(m1, root, v)
    {
      hide Mapping;
    }

    /** After uvmcopy() into a new address space, or its failure, that space maps what was copied. */
    lemma CopyLooksLike(m1: Mem, o1: Owners, src: int, root: int, pages: int)
      requires UserSpace(m1, o1, root, 0) && Unharmed(m1, o1, mem, owner, root, 0, pages) && 0 <= pages <= TRAPFRAME
      requires forall w | 0 <= w < pages :: Mapping(m1, src, w).v && Copied(m1, mem, owner, src, root, w)
      ensures UserSpace(mem, owner, root, pages)
    {
      forall v | 0 <= v < MAXVPN ensures Mapping(mem, root, v).v <==> v < pages || v >= TRAPFRAME {
        assert v < pages ==> Copied(m1, mem, owner, src, root, v);
      }
    }
  }
}
