/** Copying between kernel and user memory, page by page (walkaddr, copyout, copyin and copyinstr in vm.c). */
module UserCopy {
  import opened Machine
  import PO = PageOwnership

  const PGSIZE: int := 4096
  const MAXVA: int := 0x40_0000_0000

  type Pte = PO.Pte
  type Table = map<int, Pte>        // the entry for a virtual page number, where there is a table for it
  type Frames = map<int, seq<int>>  // the bytes of physical pages

  // ---------------------------------------------------------------- one byte at a time

  /** The entry through which copyout() (write) or copyin() may reach address va. */
  predicate Allowed(pt: Table, frames: Frames, va: int, write: bool) {
    && 0 <= va < MAXVA && va / PGSIZE in pt
    && var e := pt[va / PGSIZE];
       && e.v && e.u && e.ppn in frames && |frames[e.ppn]| == PGSIZE
       && (if write then e.w else e.ppn != 0)
  }

  /** Every frame that a valid user entry names exists. */
  predicate FramesOk(pt: Table, frames: Frames) {
    forall p | p in pt && pt[p].v && pt[p].u :: pt[p].ppn in frames && |frames[pt[p].ppn]| == PGSIZE
  }

  function Load(pt: Table, frames: Frames, va: int): int
    requires Allowed(pt, frames, va, false)
  {
    frames[pt[va / PGSIZE].ppn][va % PGSIZE]
  }

  /** A byte store through the page table, where it is allowed. */
  function Store(pt: Table, frames: Frames, va: int, b: int): Frames {
    if !Allowed(pt, frames, va, true) then frames else
    var f := pt[va / PGSIZE].ppn;
    frames[f := frames[f][va % PGSIZE := b]]
  }

  /** All of the n bytes from va are within reach. */
  ghost predicate Reach(pt: Table, frames: Frames, va: int, n: int, write: bool) {
    forall a | va <= a < va + n :: Allowed(pt, frames, a, write)
  }

  /** Memory after storing the first n bytes of src, one by one. */
  function StoreAll(pt: Table, frames: Frames, va: int, src: seq<int>, n: nat): Frames
    requires n <= |src|
  {
    if n == 0 then frames else Store(pt, StoreAll(pt, frames, va, src, n - 1), va + n - 1, src[n - 1])
  }

  /** Stores change no frame's size. */
  lemma {:induction false} StoresKeep(pt: Table, frames: Frames, va: int, src: seq<int>, n: nat, f: int)
    requires n <= |src|
    ensures var r := StoreAll(pt, frames, va, src, n);
            (f in r <==> f in frames) && (f in frames ==> |r[f]| == |frames[f]|)
  {
    if n > 0 { StoresKeep(pt, frames, va, src, n - 1, f); }
  }

  /** Some address in [va, va + n) has a valid entry for frame f with PTE_U and PTE_W. */
  ghost predicate Writable(pt: Table, va: int, n: int, f: int) {
    exists a :: va <= a < va + n && WritablePage(pt, a / PGSIZE, f)
  }

  predicate WritablePage(pt: Table, page: int, f: int) { page in pt && pt[page].v && pt[page].u && pt[page].w && pt[page].ppn == f }

  /** Stores change only frames that the table lets user code write. */
  lemma {:induction false} StoresWritable(pt: Table, frames: Frames, va: int, src: seq<int>, n: nat, f: int)
    requires n <= |src| && f in frames && f in StoreAll(pt, frames, va, src, n) && StoreAll(pt, frames, va, src, n)[f] != frames[f]
    ensures Writable(pt, va, n, f)
  {
    if n > 0 {
      var before := StoreAll(pt, frames, va, src, n - 1);
      StoresKeep(pt, frames, va, src, n - 1, f);
      if before[f] != frames[f] {
        StoresWritable(pt, frames, va, src, n - 1, f);
        var a :| va <= a < va + n - 1 && WritablePage(pt, a / PGSIZE, f);
        assert va <= a < va + n;
      } else {
        assert WritablePage(pt, (va + n - 1) / PGSIZE, f);
      }
    }
  }

  lemma SpliceOne(b: seq<int>, p: int, src: seq<int>, n: nat, m: nat)
    requires |b| == PGSIZE && 0 <= p && 0 < m && p + m <= PGSIZE && n + m <= |src|
    ensures Splice(b, p, src[n..n + m]) == if m == 1 then b[p := src[n]] else Splice(b, p, src[n..n + m - 1])[p + m - 1 := src[n + m - 1]]
  {
    var r := if m == 1 then b[p := src[n]] else Splice(b, p, src[n..n + m - 1])[p + m - 1 := src[n + m - 1]];
    forall q | 0 <= q < PGSIZE ensures Splice(b, p, src[n..n + m])[q] == r[q] { }
  }

  lemma SamePage(va: int, k: int)
    requires 0 <= va && 0 <= k && va % PGSIZE + k < PGSIZE
    ensures (va + k) / PGSIZE == va / PGSIZE && (va + k) % PGSIZE == va % PGSIZE + k
  {
  }

  lemma StoreOne(pt: Table, frames: Frames, va: int, src: seq<int>, n: nat, page: int, o: int)
    requires n < |src| && Reach(pt, frames, va, n + 1, true) && va + n == page * PGSIZE + o && 0 <= o < PGSIZE
    ensures Reach(pt, frames, va, n, true) && Allowed(pt, frames, va + n, true) && page in pt
    ensures var before, f := StoreAll(pt, frames, va, src, n), pt[page].ppn;
            && f in before && |before[f]| == PGSIZE
            && StoreAll(pt, frames, va, src, n + 1) == before[f := before[f][o := src[n]]]
  {
    assert Allowed(pt, frames, va + n, true);
    assert (va + n) / PGSIZE == page && (va + n) % PGSIZE == o;
    StoresKeep(pt, frames, va, src, n, pt[page].ppn);
  }

  lemma ReachLess(pt: Table, frames: Frames, va: int, n: int, n': int, write: bool)
    requires Reach(pt, frames, va, n, write) && n' <= n
    ensures Reach(pt, frames, va, n', write)
    ensures n' < n && 0 <= n' ==> Allowed(pt, frames, va + n', write)
  {
  }

  /** Storing m bytes within a page one by one is one memmove(). */
  lemma {:induction false} ChunkIsBytes(pt: Table, frames: Frames, va: int, src: seq<int>, n: nat, m: nat, page: int, o: int)
    requires n + m <= |src| && Reach(pt, frames, va, n + m, true) && va + n == page * PGSIZE + o && 0 <= o && o + m <= PGSIZE && 0 < m
    ensures Reach(pt, frames, va, n, true) && page in pt
    ensures var f := pt[page].ppn;
            var before := StoreAll(pt, frames, va, src, n);
            && f in before && |before[f]| == PGSIZE
            && StoreAll(pt, frames, va, src, n + m) == before[f := Splice(before[f], o, src[n..n + m])]
    decreases m
  {
    ReachLess(pt, frames, va, n + m, n, true);
    hide Reach, StoreAll, Splice, Allowed;
    StoreOne(pt, frames, va, src, n + m - 1, page, o + m - 1);
    if m > 1 { ChunkIsBytes(pt, frames, va, src, n, m - 1, page, o); }
    Combine(StoreAll(pt, frames, va, src, n), StoreAll(pt, frames, va, src, n + m - 1), StoreAll(pt, frames, va, src, n + m),
            pt[page].ppn, o, src, n, m);
  }

  lemma Combine(before: Frames, part: Frames, whole: Frames, f: int, o: int, src: seq<int>, n: nat, m: nat)
    requires f in before && |before[f]| == PGSIZE && 0 <= o && 0 < m && o + m <= PGSIZE && n + m <= |src|
    requires part == if m == 1 then before else before[f := Splice(before[f], o, src[n..n + m - 1])]
    requires whole == part[f := part[f][o + m - 1 := src[n + m - 1]]]
    ensures whole == before[f := Splice(before[f], o, src[n..n + m])]
  {
    hide Splice;
    SpliceOne(before[f], o, src, n, m);
  }

  predicate Mapped(pt: Table, page: int) { page in pt && pt[page].v }

  /** Different pages of [va, va + n) map to different frames, none of them frame 0. */
  ghost predicate PagesApart(pt: Table, va: int, n: int) {
    forall a, b | va <= a < va + n && va <= b < va + n && Mapped(pt, a / PGSIZE) && Mapped(pt, b / PGSIZE) ::
      pt[a / PGSIZE].ppn != 0 && (a / PGSIZE != b / PGSIZE ==> pt[a / PGSIZE].ppn != pt[b / PGSIZE].ppn)
  }

  /** The kernel's page tables are like that: every user page has a frame of its own. */
  lemma SpaceApart(mem: PO.Mem, owner: PO.Owners, root: int, pt: Table, va: int, n: int)
    requires PO.TreesOk(mem, owner, -1, 0) && PO.IsRoot(owner, root) && 0 <= va && va + n <= PO.TRAPFRAME * PGSIZE
    requires forall p | p in pt :: 0 <= p < PO.MAXVPN && pt[p] == PO.Mapping(mem, root, p)
    ensures PagesApart(pt, va, n)
  {
    forall a, b | va <= a < va + n && va <= b < va + n && Mapped(pt, a / PGSIZE) && Mapped(pt, b / PGSIZE)
      ensures pt[a / PGSIZE].ppn != 0 && (a / PGSIZE != b / PGSIZE ==> pt[a / PGSIZE].ppn != pt[b / PGSIZE].ppn)
    {
      PO.MappedIsOwned(mem, owner, root, a / PGSIZE);
      PO.MappedIsOwned(mem, owner, root, b / PGSIZE);
    }
  }

  /** What was stored is there to be loaded. */
  lemma {:induction false} StoresLoad(pt: Table, frames: Frames, va: int, src: seq<int>, n: nat, a: int)
    requires n <= |src| && 0 <= va && Reach(pt, frames, va, |src|, true) && PagesApart(pt, va, |src|) && va <= a < va + n
    ensures var r := StoreAll(pt, frames, va, src, n); Allowed(pt, r, a, false) && Load(pt, r, a) == src[a - va]
  {
    var before, c := StoreAll(pt, frames, va, src, n - 1), va + n - 1;
    assert Allowed(pt, frames, a, true) && Allowed(pt, frames, c, true);
    assert Mapped(pt, a / PGSIZE) && Mapped(pt, c / PGSIZE);
    StoresKeep(pt, frames, va, src, n, pt[a / PGSIZE].ppn);
    StoresKeep(pt, frames, va, src, n - 1, pt[c / PGSIZE].ppn);
    if a < c {
      StoresLoad(pt, frames, va, src, n - 1, a);
      assert a / PGSIZE == c / PGSIZE ==> a % PGSIZE != c % PGSIZE;
    }
  }

  // ---------------------------------------------------------------- the loops

  class Memory {
    var pt: Table
    var frames: Frames

    /** walkaddr(): the frame of user page va / PGSIZE, or 0. */
    method WalkAddr(va: int) returns (pa: int)
      requires 0 <= va && FramesOk(pt, frames)
      ensures Allowed(pt, frames, va, false) ==> pa != 0 && pa == pt[va / PGSIZE].ppn
      ensures !Allowed(pt, frames, va, false) ==> pa == 0
    {
      if va >= MAXVA { return 0; }
      if va / PGSIZE !in pt { return 0; }
      var pte := pt[va / PGSIZE];
      if !pte.v { return 0; }
      if !pte.u { return 0; }
      return pte.ppn;
    }

    /**
     * copyout(): `done` bytes are stored as if one by one; all of them (0), or as many as precede
     * the first address that is out of reach (-1).
     */
    method CopyOut(dstva: int, src: seq<int>) returns (ret: int, ghost done: nat)
      requires 0 <= dstva < U64 && FramesOk(pt, frames)
      modifies this`frames
      ensures done <= |src| && Reach(pt, old(frames), dstva, done, true)
      ensures frames == StoreAll(pt, old(frames), dstva, src, done)
      ensures ret == 0 <==> done == |src|
      ensures ret == 0 || (ret == -1 && !Allowed(pt, old(frames), dstva + done, true))
      ensures frames.Keys == old(frames).Keys && forall f | f in frames && frames[f] != old(frames)[f] :: Writable(pt, dstva, done, f)
    {
      hide StoreAll, Splice, Writable;
      ret, done := CopyOutPages(dstva, src);
      OnlyWritable(old(frames), dstva, src, done);
    }

    lemma OnlyWritable(m0: Frames, va: int, src: seq<int>, n: nat)
      requires n <= |src| && frames == StoreAll(pt, m0, va, src, n)
      ensures frames.Keys == m0.Keys && forall f | f in frames && frames[f] != m0[f] :: Writable(pt, va, n, f)
    {
      hide StoreAll, Writable;
      forall f ensures f in frames <==> f in m0 { StoresKeep(pt, m0, va, src, n, f); }
      forall f | f in frames && frames[f] != m0[f] ensures Writable(pt, va, n, f) { StoresWritable(pt, m0, va, src, n, f); }
    }

    /** The loop of copyout(). */
    method CopyOutPages(dstva: int, src: seq<int>) returns (ret: int, ghost done: nat)
      requires 0 <= dstva < U64 && FramesOk(pt, frames)
      modifies this`frames
      ensures done <= |src| && Reach(pt, old(frames), dstva, done, true)
      ensures frames == StoreAll(pt, old(frames), dstva, src, done)
      ensures ret == 0 <==> done == |src|
      ensures ret == 0 || (ret == -1 && !Allowed(pt, old(frames), dstva + done, true))
    {
      hide StoreAll, Splice;
      ghost var m0 := frames;
      StoreNone(dstva, src);
      var va, i := dstva, 0;
      done := 0;
      while i < |src|
        invariant 0 <= i <= |src| && done == i && Reach(pt, m0, dstva, i, true)
        invariant frames == StoreAll(pt, m0, dstva, src, i)
        invariant va == dstva + i || i == |src|
        decreases |src| - i
      {
        var va0 := va / PGSIZE * PGSIZE;
        if va0 >= MAXVA { return -1, i; }
        var page := va / PGSIZE;
        if page !in pt || !pt[page].v || !pt[page].u || !pt[page].w { return -1, i; }
        var n := PGSIZE - (va - va0);
        if n > |src| - i { n := |src| - i; }
        PageReach(m0, dstva, va, i, n, true);
        ChunkIsBytes(pt, m0, dstva, src, i, n, page, va - va0);
        var f := pt[page].ppn;
        frames := frames[f := Splice(frames[f], va - va0, src[i..i + n])];
        i := i + n;
        done := i;
        va := va0 + PGSIZE;
      }
      ret := 0;
    }

    lemma StoreNone(va: int, src: seq<int>)
      ensures StoreAll(pt, frames, va, src, 0) == frames
    {
    }

    /** If one address of a page is within reach, so are the next n in the page. */
    lemma PageReach(m0: Frames, start: int, va: int, i: int, n: int, write: bool)
      requires 0 <= va && 0 <= n && va % PGSIZE + n <= PGSIZE && Reach(pt, m0, start, i, write) && va == start + i
      requires Allowed(pt, m0, va, write)
      ensures Reach(pt, m0, start, i + n, write)
    {
      forall a | start <= a < start + i + n ensures Allowed(pt, m0, a, write) {
        if a >= va { SamePage(va, a - va); }
      }
    }

    /** The bytes that copyin() should find. */
    ghost predicate Loads(va: int, data: seq<int>)
      reads this
    {
      && Reach(pt, frames, va, |data|, false)
      && forall a | va <= a < va + |data| :: Allowed(pt, frames, a, false) && data[a - va] == Load(pt, frames, a)
    }

    /** copyin(): the bytes that single loads give, or -1 if some address is out of reach. */
    method CopyIn(srcva: int, len: nat) returns (ret: int, dst: seq<int>)
      requires 0 <= srcva < U64 && FramesOk(pt, frames)
      ensures Loads(srcva, dst) && |dst| <= len
      ensures ret == 0 <==> |dst| == len
      ensures ret == 0 || (ret == -1 && !Allowed(pt, frames, srcva + |dst|, false))
    {
      dst := [];
      var va := srcva;
      while |dst| < len
        invariant |dst| <= len && Loads(srcva, dst) && (va == srcva + |dst| || |dst| == len)
        decreases len - |dst|
      {
        var va0 := va / PGSIZE * PGSIZE;
        RoundDown(va);
        var pa := WalkAddr(va0);
        if pa == 0 { return -1, dst; }
        var n := PGSIZE - (va - va0);
        if n > len - |dst| { n := len - |dst|; }
        PageReach(frames, srcva, va, |dst|, n, false);
        ghost var dst0 := dst;
        dst := dst + frames[pa][va - va0..va - va0 + n];
        forall a | srcva <= a < srcva + |dst| ensures dst[a - srcva] == Load(pt, frames, a) {
          if a >= va { SamePage(va, a - va); } else { assert dst[a - srcva] == dst0[a - srcva]; }
        }
        va := va0 + PGSIZE;
      }
      ret := 0;
    }

    lemma RoundDown(va: int)
      requires 0 <= va
      ensures var va0 := va / PGSIZE * PGSIZE;
              va0 / PGSIZE == va / PGSIZE && va - va0 == va % PGSIZE && (Allowed(pt, frames, va0, false) <==> Allowed(pt, frames, va, false))
    {
    }

    /** Byte va + k is a NUL that can be reached from va. */
    ghost predicate NulAt(va: int, k: int)
      reads this
    {
      0 <= k && Reach(pt, frames, va, k + 1, false) && Allowed(pt, frames, va + k, false) && Load(pt, frames, va + k) == 0
    }

    /**
     * copyinstr(): 0 exactly when a NUL lies within max bytes, all within reach up to it; then dst
     * is the string with its NUL.
     */
    method CopyInStr(srcva: int, max: nat) returns (ret: int, dst: seq<int>)
      requires 0 <= srcva < U64 && FramesOk(pt, frames)
      ensures ret == 0 <==> exists k | 0 <= k < max :: NulAt(srcva, k)
      ensures Loads(srcva, dst) && |dst| <= max && (ret == 0 || ret == -1)
      ensures ret == 0 ==> dst != [] && dst[|dst| - 1] == 0 && forall j | 0 <= j < |dst| - 1 :: dst[j] != 0
      ensures ret == -1 ==> forall j | 0 <= j < |dst| :: dst[j] != 0
    {
      dst := [];
      var va := srcva;
      while |dst| < max
        invariant |dst| <= max && Loads(srcva, dst) && (va == srcva + |dst| || |dst| == max) && forall j | 0 <= j < |dst| :: dst[j] != 0
        decreases max - |dst|
      {
        var va0 := va / PGSIZE * PGSIZE;
        RoundDown(va);
        var pa := WalkAddr(va0);
        if pa == 0 {
          NoNul(srcva, dst, max);
          return -1, dst;
        }
        var n := PGSIZE - (va - va0);
        if n > max - |dst| { n := max - |dst|; }
        var p := va - va0;
        ghost var i := |dst|;
        PageReach(frames, srcva, va, i, n, false);
        while n > 0
          invariant 0 <= n && p == va - va0 + (|dst| - i) && |dst| + n <= max && p + n <= PGSIZE && i <= |dst|
          invariant Loads(srcva, dst) && forall j | 0 <= j < |dst| :: dst[j] != 0
          invariant Reach(pt, frames, srcva, |dst| + n, false) && (p + n == PGSIZE || |dst| + n == max)
        {
          ByteHere(srcva, va, |dst|, p);
          if frames[pa][p] == 0 {
            assert NulAt(srcva, |dst|);
            OneMoreByte(srcva, dst, 0);
            dst := dst + [0];
            return 0, dst;
          }
          OneMoreByte(srcva, dst, frames[pa][p]);
          dst := dst + [frames[pa][p]];
          n := n - 1;
          p := p + 1;
        }
        va := va0 + PGSIZE;
      }
      NoNul(srcva, dst, max);
      ret := -1;
    }

    lemma ByteHere(srcva: int, va: int, k: int, p: int)
      requires 0 <= va <= srcva + k && p == srcva + k - va / PGSIZE * PGSIZE && 0 <= p < PGSIZE && Allowed(pt, frames, srcva + k, false)
      ensures (srcva + k) / PGSIZE == va / PGSIZE && Load(pt, frames, srcva + k) == frames[pt[va / PGSIZE].ppn][p]
    {
    }

    lemma OneMoreByte(va: int, dst: seq<int>, b: int)
      requires Loads(va, dst) && Allowed(pt, frames, va + |dst|, false) && Load(pt, frames, va + |dst|) == b
      ensures Loads(va, dst + [b])
    {
      var dst' := dst + [b];
      forall a | va <= a < va + |dst'| ensures Allowed(pt, frames, a, false) && dst'[a - va] == Load(pt, frames, a) {
        if a < va + |dst| { assert Allowed(pt, frames, a, false) && dst[a - va] == Load(pt, frames, a); }
      }
    }

    lemma NoNul(va: int, dst: seq<int>, max: nat)
      requires Loads(va, dst) && (|dst| == max || !Allowed(pt, frames, va + |dst|, false)) && forall j | 0 <= j < |dst| :: dst[j] != 0
      ensures forall k | 0 <= k < max :: !NulAt(va, k)
    {
      forall k | 0 <= k < max ensures !NulAt(va, k) {
        if k < |dst| { assert dst[va + k - va] != 0; }
      }
    }

    /** copyout() and then copyin() of the same range: the same bytes come back. */
    method OutAndIn(va: int, src: seq<int>) returns (out: int, ret: int, dst: seq<int>)
      requires 0 <= va < U64 && FramesOk(pt, frames) && PagesApart(pt, va, |src|)
      modifies this`frames
      ensures out == 0 ==> ret == 0 && dst == src
    {
      hide StoreAll;
      ghost var m0 := frames;
      ghost var done;
      out, done := CopyOut(va, src);
      forall p | p in pt && pt[p].v && pt[p].u ensures pt[p].ppn in frames && |frames[pt[p].ppn]| == PGSIZE {
        StoresKeep(pt, m0, va, src, done, pt[p].ppn);
      }
      ret, dst := CopyIn(va, |src|);
      if out == 0 {
        forall a | va <= a < va + |src| ensures Allowed(pt, frames, a, false) && Load(pt, frames, a) == src[a - va] {
          StoresLoad(pt, m0, va, src, |src|, a);
        }
        forall i | 0 <= i < |dst| ensures dst[i] == src[i] { assert dst[va + i - va] == Load(pt, frames, va + i); }
      }
    }
  }
}
