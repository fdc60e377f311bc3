/** malloc() and free() of umalloc.c, over headers in memory. */
module HeapAllocator {
  import opened Counting
  import opened HeapList
  import opened Machine

  const HEADER: int := 16           // sizeof(Header)
  const NULL: int := -1

  /** The units that malloc() looks for, header included. */
  function UnitsFor(nbytes: int): int { (nbytes + HEADER - 1) / HEADER + 1 }

  /** What sbrk(), which takes an int, is asked for when morecore() needs nu units. */
  function SbrkArg(nu: int): int {
    var bytes := nu * HEADER % U32;
    if bytes < 0x8000_0000 then bytes else bytes - U32
  }

  /** sbrk() is asked for the bytes that the units need, exactly when they are fewer than 2^31; otherwise for 16 at most. */
  lemma RequestFits(nbytes: int)
    requires 0 <= nbytes < U32
    ensures var nu := if UnitsFor(nbytes) < 4096 then 4096 else UnitsFor(nbytes);
            && (SbrkArg(nu) == nu * HEADER <==> UnitsFor(nbytes) * HEADER < 0x8000_0000)
            && (UnitsFor(nbytes) * HEADER < 0x8000_0000 <==> nbytes <= 0x7FFF_FFE0)
            && (nbytes > 0x7FFF_FFE0 ==> SbrkArg(nu) <= HEADER)
  {
    var n := UnitsFor(nbytes);
    assert nbytes <= (n - 1) * HEADER < nbytes + HEADER;
  }

  /** Live blocks: their headers are intact, and they overlap neither each other nor free blocks. */
  ghost predicate LiveOk(live: Units, list: seq<int>, size: Units, base: int) {
    && (forall a | a in live :: a > base && a in size && size[a] == live[a] > 0)
    && (forall a, b | a in live && b in live && a < b :: a + live[a] <= b)
    && (forall a, u | a in live && a <= u < a + live[a] :: !InFree(list, size, u))
  }

  ghost predicate InLive(live: Units, u: int) {
    exists a :: a in live && a <= u < a + live[a]
  }

  /** The units obtained from sbrk() are those of the free and the live blocks. */
  ghost predicate CoreOk(core: set<int>, live: Units, list: seq<int>, size: Units, base: int, brk: int) {
    && base < brk && (forall u :: u in core <==> InFree(list, size, u) || InLive(live, u))
    && forall u | u in core :: base < u < brk
  }

  /** Live blocks are not on the free list. */
  lemma LiveNotListed(live: Units, list: seq<int>, nxt: Units, size: Units, base: int, a: int)
    requires LiveOk(live, list, size, base) && Ordered(list, nxt, size, base) && a in live
    ensures a !in list
  {
    if i :| 0 <= i < |list| && list[i] == a {
      assert Covers(list, size, i, a);
      assert InFree(list, size, a);
      assert false;
    }
  }

  /** A live block became free. */
  lemma FreeKeeps(live: Units, list: seq<int>, size: Units, core: set<int>, base: int, brk: int, bp: int, list': seq<int>, nxt: Units, size': Units)
    requires LiveOk(live, list, size, base) && CoreOk(core, live, list, size, base, brk) && bp in live && Ordered(list, nxt, size, base)
    requires forall u :: InFree(list', size', u) <==> InFree(list, size, u) || bp <= u < bp + size[bp]
    requires forall a | a in size && a != bp && a !in list :: a in size' && size'[a] == size[a]
    ensures LiveOk(live - {bp}, list', size', base) && CoreOk(core, live - {bp}, list', size', base, brk)
  {
    var live' := live - {bp};
    forall a | a in live' ensures a in size' && size'[a] == live[a] { LiveNotListed(live, list, nxt, size, base, a); }
    hide InFree;
    forall a, u | a in live' && a <= u < a + live'[a] ensures !InFree(list', size', u) {
      assert a in live && bp in live;
    }
    forall u ensures u in core <==> InFree(list', size', u) || InLive(live', u) {
      if InLive(live, u) {
        var a :| a in live && a <= u < a + live[a];
        assert a == bp || a in live';
      }
      if InLive(live', u) {
        var a :| a in live' && a <= u < a + live'[a];
        assert a in live;
      }
      if bp <= u < bp + size[bp] { assert InLive(live, u); }
    }
  }

  /** Units [q, q + n) left the free list and became a live block. */
  lemma TakeKeeps(live: Units, list: seq<int>, size: Units, core: set<int>, base: int, brk: int,
                  q: int, n: int, list': seq<int>, nxt: Units, size': Units)
    requires LiveOk(live, list, size, base) && CoreOk(core, live, list, size, base, brk) && Ordered(list, nxt, size, base) && 0 < n
    requires forall u | q <= u < q + n :: InFree(list, size, u)
    requires forall u :: InFree(list', size', u) <==> InFree(list, size, u) && !(q <= u < q + n)
    requires q in size' && size'[q] == n && forall a | a in size && a != q && a !in list :: a in size' && size'[a] == size[a]
    ensures LiveOk(live[q := n], list', size', base) && CoreOk(core, live[q := n], list', size', base, brk) && q !in live
  {
    hide InFree;
    var live' := live[q := n];
    assert q !in live by { assert InFree(list, size, q); }
    assert q > base by { assert q in core; }
    forall a | a in live ensures a in size' && size'[a] == live[a] { LiveNotListed(live, list, nxt, size, base, a); }
    forall a | a in live ensures a + live[a] <= q || q + n <= a {
      var u := if a < q then q else a;
      assert a <= u < a + live[a] && q <= u < q + n ==> InFree(list, size, u);
    }
    forall u ensures u in core <==> InFree(list', size', u) || InLive(live', u) {
      if InLive(live, u) {
        var a :| a in live && a <= u < a + live[a];
        assert a in live' && live'[a] == live[a];
      }
      if InLive(live', u) {
        var a :| a in live' && a <= u < a + live'[a];
        assert a == q || a in live;
      }
      if q <= u < q + n { assert q in live' && InLive(live', u); }
    }
  }

  /** [at, at + n) came from sbrk() and is free. */
  lemma MoreKeeps(live: Units, list: seq<int>, size: Units, core: set<int>, base: int, brk: int,
                  at: int, n: int, list': seq<int>, nxt: Units, size': Units)
    requires LiveOk(live, list, size, base) && CoreOk(core, live, list, size, base, brk) && Ordered(list, nxt, size, base)
    requires at >= brk && n > 0
    requires forall u :: InFree(list', size', u) <==> InFree(list, size, u) || at <= u < at + n
    requires forall a | a in size && a != at && a !in list :: a in size' && size'[a] == size[a]
    ensures LiveOk(live, list', size', base) && CoreOk(core + Range(at, n), live, list', size', base, at + n)
  {
    hide InFree, Range;
    forall a | a in live ensures a in size' && size'[a] == live[a] && a + live[a] <= at {
      LiveNotListed(live, list, nxt, size, base, a);
      assert InLive(live, a) && InLive(live, a + live[a] - 1);
      assert a in core && a + live[a] - 1 in core;
    }
  }

  /** The units of the first n blocks on the list. */
  ghost function FreeSet(list: seq<int>, size: Units, n: nat): set<int>
    requires n <= |list| && forall i | 0 <= i < |list| :: list[i] in size && size[list[i]] >= 0
  {
    if n == 0 then {} else FreeSet(list, size, n - 1) + Range(list[n - 1], size[list[n - 1]])
  }

  lemma {:induction false} FreeSetHas(list: seq<int>, size: Units, n: nat, u: int)
    requires n <= |list| && Apart(list, size)
    ensures u in FreeSet(list, size, n) ==> InFree(list, size, u)
    ensures n < |list| && u in FreeSet(list, size, n) ==> u < list[n]
  {
    hide Range;
    if n > 0 {
      FreeSetHas(list, size, n - 1, u);
      assert Covers(list, size, n - 1, u) ==> InFree(list, size, u);
    }
  }

  lemma {:induction false} FreeSetAll(list: seq<int>, size: Units, n: nat, i: int, u: int)
    requires n <= |list| && Apart(list, size) && 0 <= i < n && Covers(list, size, i, u)
    ensures u in FreeSet(list, size, n)
  {
    hide Range;
    if i < n - 1 { FreeSetAll(list, size, n - 1, i, u); }
  }

  lemma {:induction false} FreeSetCounts(list: seq<int>, size: Units, n: nat)
    requires n <= |list| && Apart(list, size)
    ensures |FreeSet(list, size, n)| == FreeUnits(list, size, n)
  {
    hide Range;
    if n > 0 {
      FreeSetCounts(list, size, n - 1);
      var rest, last := FreeSet(list, size, n - 1), Range(list[n - 1], size[list[n - 1]]);
      forall u | u in rest ensures u !in last { FreeSetHas(list, size, n - 1, u); }
      assert rest * last == {};
    }
  }

  /** The sizes of the live blocks at [lo, hi), added up. */
  ghost function LiveUnits(live: Units, lo: int, hi: int): int
    decreases hi - lo
  {
    if hi <= lo then 0 else LiveUnits(live, lo, hi - 1) + (if hi - 1 in live then live[hi - 1] else 0)
  }

  /** The units of those blocks. */
  ghost function LiveSet(live: Units, lo: int, hi: int): set<int>
    requires forall a | a in live :: live[a] > 0
    decreases hi - lo
  {
    if hi <= lo then {} else LiveSet(live, lo, hi - 1) + (if hi - 1 in live then Range(hi - 1, live[hi - 1]) else {})
  }

  lemma {:induction false} LiveSetHas(live: Units, lo: int, hi: int, u: int)
    requires forall a | a in live :: live[a] > 0
    ensures u in LiveSet(live, lo, hi) <==> exists a :: lo <= a < hi && a in live && a <= u < a + live[a]
    decreases hi - lo
  {
    hide Range;
    if hi > lo { LiveSetHas(live, lo, hi - 1, u); }
  }

  lemma {:induction false} LiveSetCounts(live: Units, list: seq<int>, size: Units, base: int, lo: int, hi: int)
    requires LiveOk(live, list, size, base)
    ensures |LiveSet(live, lo, hi)| == LiveUnits(live, lo, hi)
    decreases hi - lo
  {
    hide Range, InFree;
    if hi > lo {
      LiveSetCounts(live, list, size, base, lo, hi - 1);
      if hi - 1 in live {
        var rest, last := LiveSet(live, lo, hi - 1), Range(hi - 1, live[hi - 1]);
        forall u | u in rest ensures u !in last { LiveSetHas(live, lo, hi - 1, u); }
        assert rest * last == {};
      }
    }
  }

  class Heap {
    const base: int               // &base
    var nxt: Units
    var size: Units
    var freep: int
    ghost var list: seq<int>
    ghost var live: Units         // sizes of the blocks given out
    ghost var core: set<int>
    ghost var brk: int

    ghost predicate Ready()
      reads this
    {
      freep in list && Ordered(list, nxt, size, base) && Coalesced(list, size)
    }

    ghost predicate Valid()
      reads this
    {
      if freep == NULL then live == map[] && core == {} && 0 <= base < brk
      else Ready() && LiveOk(live, list, size, base) && CoreOk(core, live, list, size, base, brk) && 0 <= base
    }

    constructor (base: int, ghost brk: int)
      requires 0 <= base < brk
      ensures Valid() && live == map[] && core == {} && freep == NULL && this.brk == brk
    {
      this.base, nxt, size, freep := base, map[], map[], NULL;
      list, live, core, this.brk := [], map[], {}, brk;
    }

    /** The loop of free(): the block on the list after which bp belongs. */
    method Search(bp: int) returns (p: int, ghost i: int)
      requires Ready() && bp > base && bp in size && size[bp] > 0 && forall u | bp <= u < bp + size[bp] :: !InFree(list, size, u)
      ensures Place(list, nxt, size, base, i, bp) && p == list[i]
    {
      ghost var t := Where(bp);
      i :| 0 <= i < |list| && list[i] == freep;
      hide Linked, Apart, Coalesced, InFree, Place;
      p := freep;
      Next(i);
      while !(bp > p && bp < nxt[p])
        invariant 0 <= i < |list| && p == list[i] && p in nxt && nxt[p] == After(list, i)
        decreases if i <= t then t - i else |list| - i + t
      {
        Next(i);
        Next(t);
        if p >= nxt[p] && (bp > p || bp < nxt[p]) { break; }
        p := nxt[p];
        i := if i == |list| - 1 then 0 else i + 1;
        Next(i);
      }
      Next(i);
      Placed(bp, i);
    }

    lemma Where(bp: int) returns (t: int)
      requires Ready() && bp > base && bp in size && size[bp] > 0 && forall u | bp <= u < bp + size[bp] :: !InFree(list, size, u)
      ensures 0 <= t < |list| && list[t] < bp && (t + 1 < |list| ==> bp < list[t + 1])
    {
      forall i | 0 <= i < |list| ensures list[i] != bp { assert Covers(list, size, i, bp) ==> InFree(list, size, bp); }
      t := PlaceExists(list, bp, |list|);
    }

    lemma Next(i: int)
      requires Ready() && 0 <= i < |list|
      ensures list[i] in nxt && nxt[list[i]] == After(list, i) && base == list[0] && base <= list[i]
      ensures i + 1 < |list| ==> list[i] < list[i + 1] && After(list, i) == list[i + 1]
    {
      assert LinkAt(list, nxt, i);
    }

    lemma Placed(bp: int, i: int)
      requires Ready() && bp > base && bp in size && size[bp] > 0 && forall u | bp <= u < bp + size[bp] :: !InFree(list, size, u)
      requires 0 <= i < |list| && list[i] < bp && (i + 1 < |list| ==> bp < list[i + 1])
      ensures Place(list, nxt, size, base, i, bp)
    {
      hide InFree;
      ClearByUnits(list, nxt, size, base, bp, size[bp]);
      assert LinkAt(list, nxt, i) && (i + 1 < |list| ==> LinkAt(list, nxt, i + 1));
      assert i > 0 ==> list[0] < list[i];
    }

    /** free() of block bp: find its place on the list, link it in and merge it with its neighbours. */
    method Link(bp: int)
      requires Ready() && bp > base && bp in size && size[bp] > 0 && forall u | bp <= u < bp + size[bp] :: !InFree(list, size, u)
      modifies this`nxt, this`size, this`freep, this`list
      ensures Ready() && Suits(list, size, old(size)[bp])
      ensures forall u :: InFree(list, size, u) <==> old(InFree(list, size, u)) || bp <= u < bp + old(size)[bp]
      ensures forall a | a in old(size) && a != bp && a !in old(list) :: a in size && size[a] == old(size)[a]
    {
      hide Ready, Linked, Apart, Coalesced, InFree, Place, Freed, HalfFreed, Suits;
      ghost var list0, nxt0, size0 := list, nxt, size;
      var p;
      ghost var i;
      p, i := Search(bp);
      FreeUpper(list, nxt, size, base, i, bp);
      PlaceFacts(i, bp);
      ghost var list1, nxt1;
      if bp + size[bp] == nxt[p] {
        list1, nxt1 := Removed(Inserted(list, i, bp), i + 2), nxt[bp := nxt[nxt[p]]][p := bp];
        size, nxt := size[bp := size[bp] + size[nxt[p]]], nxt[bp := nxt[nxt[p]]];
      } else {
        list1, nxt1 := Inserted(list, i, bp), nxt[bp := nxt[p]][p := bp];
        nxt := nxt[bp := nxt[p]];
      }
      FreeLower(list0, nxt0, size0, base, i, bp, list1, nxt1, size);
      if p + size[p] == bp {
        size, nxt := size[p := size[p] + size[bp]], nxt[p := nxt[bp]];
        list := Removed(list1, i + 1);
        assert nxt == nxt1[p := nxt1[bp]];
      } else {
        nxt := nxt[p := bp];
        list := list1;
        assert nxt == nxt1;
      }
      freep := p;
      LinkedAll(list0, size0, i, bp);
    }

    lemma PlaceFacts(i: int, bp: int)
      requires Place(list, nxt, size, base, i, bp)
      ensures 0 <= i < |list| && list[i] != bp && list[i] in nxt && bp in size
      ensures bp + size[bp] == nxt[list[i]] ==> i + 1 < |list|
    {
      UpperTouches(list, nxt, size, base, i, bp);
    }

    lemma LinkedAll(list0: seq<int>, size0: Units, i: int, bp: int)
      requires 0 <= i < |list0| && bp in size0 && Freed(list0, size0, base, i, bp, list, nxt, size) && freep == list0[i]
      ensures Ready() && Suits(list, size, size0[bp])
      ensures forall u :: InFree(list, size, u) <==> InFree(list0, size0, u) || bp <= u < bp + size0[bp]
      ensures forall a | a in size0 && a != bp && a !in list0 :: a in size && size[a] == size0[a]
    {
      hide Linked, Apart, Coalesced, InFree;
    }

    /** free() of a block that malloc() gave out. */
    method Free(ap: int)
      requires Valid() && ap - 1 in live
      modifies this
      ensures Valid() && live == old(live) - {ap - 1} && core == old(core) && brk == old(brk)
    {
      hide InFree, Linked, Apart, Coalesced;
      ghost var list0, nxt0, size0, live0 := list, nxt, size, live;
      var bp := ap - 1;
      Link(bp);
      FreeKeeps(live0, list0, size0, core, base, brk, bp, list, nxt0, size);
      live := live - {bp};
      NotNull();
    }

    lemma NotNull()
      requires Ready() && 0 <= base
      ensures freep != NULL
    {
      var i :| 0 <= i < |list| && list[i] == freep;
      Next(i);
    }

    /** morecore(): `at` is what sbrk() returns, NULL or a new region above all others. */
    method MoreCore(nunits: int, at: int) returns (ok: bool)
      requires Valid() && freep != NULL && 0 < nunits && nunits * HEADER < 0x8000_0000 && (at == NULL || at >= brk)
      modifies this
      ensures Valid() && freep != NULL && live == old(live) && (ok <==> at != NULL)
      ensures !ok ==> nxt == old(nxt) && size == old(size) && freep == old(freep) && core == old(core) && brk == old(brk) && list == old(list)
      ensures ok ==> Suits(list, size, nunits) && Extended(old(core), core, brk, at, nunits)
    {
      hide InFree, Linked, Apart, Coalesced, Range;
      var nu := if nunits < 4096 then 4096 else nunits;
      if at == NULL { return false; }
      ghost var list0, nxt0, size0 := list, nxt, size;
      NewRegion(at, nu, size[at := nu]);
      size := size[at := nu];
      Link(at);
      MoreKeeps(live, list0, size0, core, base, brk, at, nu, list, nxt0, size);
      core, brk := core + Range(at, nu), at + nu;
      NotNull();
      SuitsLess(nu, nunits);
      return true;
    }

    lemma NewRegion(at: int, nu: int, size': Units)
      requires Valid() && freep != NULL && at >= brk && nu > 0 && size' == size[at := nu]
      ensures at !in list && Ordered(list, nxt, size', base) && Coalesced(list, size')
      ensures forall u :: InFree(list, size', u) <==> InFree(list, size, u)
      ensures forall u | at <= u < at + nu :: !InFree(list, size', u)
    {
      forall i | 0 <= i < |list| ensures list[i] != at {
        assert i > 0 ==> Covers(list, size, i, list[i]) && InFree(list, size, list[i]);
      }
      assert forall i, u :: Covers(list, size', i, u) <==> Covers(list, size, i, u);
      assert forall i :: Touching(list, size', i) <==> Touching(list, size, i);
      hide Linked;
    }

    lemma SuitsLess(nu: int, n: int)
      requires Suits(list, size, nu) && n <= nu
      ensures Suits(list, size, n)
    {
      var i :| Big(list, size, i, nu);
      assert Big(list, size, i, n);
    }

    /** Where malloc()'s search stands: f, i and j are the places of freep, prevp and p. */
    ghost predicate Searching(f: int, i: int, j: int, n: int)
      reads this
    {
      && 0 <= f < |list| && 0 <= i < |list| && j == Round(i) && freep == list[f]
      && forall k | 0 <= k < |list| && Passed(f, j, k) :: list[k] in size && size[list[k]] < n
    }

    /** From f round the circle, k comes before j. */
    static predicate Passed(f: int, j: int, k: int) { if j > f then f < k < j else k > f || k < j }

    /**
     * malloc(): a block of nunits, header included, from the free list; at most one morecore().
     * NULL exactly if no free block suits and sbrk() fails; sbrk() is not called while a free block suits.
     */
    method Malloc(nbytes: int, at: int) returns (r: int)
      requires Valid() && 0 <= nbytes && UnitsFor(nbytes) * HEADER < 0x8000_0000 && (at == NULL || at >= brk)
      modifies this
      ensures Valid() && freep != NULL
      ensures r == NULL ==> live == old(live) && core == old(core) && brk == old(brk) && at == NULL && !Suits(list, size, UnitsFor(nbytes))
      ensures r != NULL ==> && r - 1 !in old(live) && live == old(live)[r - 1 := UnitsFor(nbytes)]
                            && (live[r - 1] - 1) * HEADER >= nbytes
      ensures (core == old(core) && brk == old(brk)) || Extended(old(core), core, brk, at, UnitsFor(nbytes))
      ensures old(freep) != NULL && old(Suits(list, size, UnitsFor(nbytes))) ==> r != NULL && core == old(core) && brk == old(brk)
      ensures r == NULL <==> at == NULL && !(old(freep) != NULL && old(Suits(list, size, UnitsFor(nbytes))))
    {
      hide Valid, Suits, Extended;
      var nunits := UnitsFor(nbytes);
      assert (nunits - 1) * HEADER >= nbytes;
      Init();
      r := Allocate(nunits, at);
    }

    /** The search of malloc(), from freep round the circle. */
    method Allocate(nunits: int, at: int) returns (r: int)
      requires Valid() && freep != NULL && 0 < nunits && nunits * HEADER < 0x8000_0000 && (at == NULL || at >= brk)
      modifies this
      ensures Valid() && freep != NULL
      ensures r == NULL ==> live == old(live) && core == old(core) && brk == old(brk) && at == NULL && !Suits(list, size, nunits)
      ensures r != NULL ==> r - 1 !in old(live) && live == old(live)[r - 1 := nunits]
      ensures (core == old(core) && brk == old(brk)) || Extended(old(core), core, brk, at, nunits)
      ensures old(Suits(list, size, nunits)) ==> r != NULL && core == old(core) && brk == old(brk)
      ensures r == NULL <==> at == NULL && !old(Suits(list, size, nunits))
    {
      hide Valid, Ready, Suits, Extended, Standing;
      var prevp, p := freep, freep;
      ghost var f, i, j;
      f, i, j := Start(nunits, prevp);
      p := nxt[prevp];
      var asked := false;
      while true
        invariant Standing(f, i, j, prevp, p, nunits) && freep != NULL
        invariant live == old(live) && (asked ==> Suits(list, size, nunits))
        invariant if asked then at != NULL && Extended(old(core), core, brk, at, nunits) && !old(Suits(list, size, nunits))
                  else core == old(core) && brk == old(brk) && list == old(list) && size == old(size)
        decreases if asked then 0 else 1, if j > f then |list| - j + f else f - j
      {
        Step(f, i, j, prevp, p, nunits);
        if size[p] >= nunits {
          r := Take(i, j, prevp, p, nunits);
          return;
        }
        if p == freep {
          if asked { assert false; }
          var ok;
          ok := MoreCore(nunits, at);
          if !ok { return NULL; }
          asked := true;
          p := freep;
          f, i, j := Start(nunits, p);
        } else {
          i, j := j, Round(j);
        }
        prevp, p := p, nxt[p];
      }
    }

    /** The place after place i on the circle. */
    ghost function Round(i: int): int
      reads this
    {
      if i == |list| - 1 then 0 else i + 1
    }

    /** malloc()'s search stands between prevp and p, and has passed only blocks that are too small. */
    ghost predicate Standing(f: int, i: int, j: int, prevp: int, p: int, n: int)
      reads this
    {
      && Valid() && freep != NULL && 0 < n && 0 <= i < |list| && 0 <= j < |list| && Searching(f, i, j, n)
      && prevp == list[i] && p == list[j]
    }

    /** The search starts after freep. */
    lemma Start(n: int, prevp: int) returns (f: int, i: int, j: int)
      requires Valid() && freep != NULL && prevp == freep && 0 < n
      ensures prevp in nxt && Standing(f, i, j, prevp, nxt[prevp], n)
    {
      f :| 0 <= f < |list| && list[f] == freep;
      i, j := f, Round(f);
      Next(f);
    }

    /** What the loop may use: p's header, and where the next step leads. */
    lemma Step(f: int, i: int, j: int, prevp: int, p: int, n: int)
      requires Standing(f, i, j, prevp, p, n)
      ensures Valid() && 0 <= i < |list| && 0 <= j < |list| && 0 <= f < |list| && prevp == list[i] && p == list[j] && p in nxt && p in size
      ensures p == freep <==> j == f
      ensures size[p] >= n ==> j == i + 1 && Suits(list, size, n)
      ensures size[p] < n && p == freep ==> !Suits(list, size, n)
      ensures size[p] < n && p != freep ==> Standing(f, j, Round(j), p, nxt[p], n)
    {
      Next(j);
      Sized(j);
      if size[p] < n && p == freep { AllSmall(f, i, j, n); }
      if size[p] >= n { assert Big(list, size, j, n); }
    }

    /** sbrk() gave room for at least n units at `at`. */
    static ghost predicate Extended(core0: set<int>, core: set<int>, brk: int, at: int, n: int)
      requires n > 0
    {
      var nu := if n < 4096 then 4096 else n;
      core == core0 + Range(at, nu) && brk == at + nu
    }

    /** The first call links the empty base to itself. */
    method Init()
      requires Valid()
      modifies this
      ensures Valid() && freep != NULL && live == old(live) && core == old(core) && brk == old(brk)
      ensures old(freep) != NULL ==> list == old(list) && size == old(size)
      ensures old(freep) == NULL ==> forall n | n > 0 :: !Suits(list, size, n)
    {
      if freep == NULL {
        EmptyList(nxt, size);
        nxt, freep := nxt[base := base], base;
        size := size[base := 0];
        list := [base];
      }
    }

    lemma EmptyList(nxt0: Units, size0: Units)
      requires Valid() && freep == NULL
      ensures Ordered([base], nxt0[base := base], size0[base := 0], base) && Coalesced([base], size0[base := 0])
      ensures LiveOk(live, [base], size0[base := 0], base) && CoreOk(core, live, [base], size0[base := 0], base, brk)
    {
      assert LinkAt([base], nxt0[base := base], 0);
    }

    lemma Sized(j: int)
      requires Ready() && 0 <= j < |list|
      ensures list[j] in size && size[list[j]] >= 0 && (size[list[j]] == 0 <==> j == 0)
      ensures forall k | 0 <= k < |list| && list[k] == list[j] :: k == j
    {
    }

    lemma AllSmall(f: int, i: int, j: int, n: int)
      requires Searching(f, i, j, n) && j == f && list[j] in size && size[list[j]] < n
      ensures !Suits(list, size, n)
    {
      forall k ensures !Big(list, size, k, n) {
        assert Passed(f, j, k) || k == j;
      }
    }

    /** malloc() has found a block that is large enough: all of it, or its tail, becomes live. */
    method Take(ghost i: int, ghost j: int, prevp: int, p: int, nunits: int) returns (r: int)
      requires Valid() && freep != NULL && 0 <= i < |list| && j == i + 1 < |list| && prevp == list[i] && p == list[j]
      requires p in size && size[p] >= nunits > 0
      modifies this`nxt, this`size, this`freep, this`list, this`live
      ensures Valid() && freep != NULL && r != NULL && r - 1 !in old(live) && live == old(live)[r - 1 := nunits]
    {
      hide InFree, Linked, Apart, Coalesced, LiveOk, CoreOk;
      ghost var list0, nxt0, size0 := list, nxt, size;
      Next(j);
      UnitsFree(j);
      ghost var q := p + size[p] - nunits;
      if size[p] == nunits {
        Taken(j);
        nxt := nxt[prevp := nxt[p]];
        list := Removed(list, j);
        r := p + 1;
      } else {
        SplitOk(list, nxt, size, base, j, nunits);
        ghost var size1 := size[p := size[p] - nunits][q := nunits];
        forall u ensures InFree(list, size1, u) <==> InFree(list, size, u) && !(q <= u < q + nunits) {
          SplitCovers(list, nxt, size, base, j, nunits, u);
        }
        assert p in list;
        size := size[p := size[p] - nunits];
        var tail := p + size[p];
        size := size[tail := nunits];
        assert size == size1;
        r := tail + 1;
      }
      freep := prevp;
      TakeKeeps(live, list0, size0, core, base, brk, q, nunits, list, nxt0, size);
      live := live[q := nunits];
      NotNull();
    }

    lemma UnitsFree(j: int)
      requires 0 <= j < |list| && list[j] in size
      ensures forall u | list[j] <= u < list[j] + size[list[j]] :: InFree(list, size, u)
    {
      forall u | list[j] <= u < list[j] + size[list[j]] ensures InFree(list, size, u) { assert Covers(list, size, j, u); }
    }

    lemma Taken(j: int)
      requires Ready() && 0 < j < |list|
      ensures list[j] in nxt && list[j] in size && list[j - 1] in Removed(list, j)
      ensures Ordered(Removed(list, j), nxt[list[j - 1] := nxt[list[j]]], size, base) && Coalesced(Removed(list, j), size)
      ensures forall u :: InFree(Removed(list, j), size, u) <==> InFree(list, size, u) && !(list[j] <= u < list[j] + size[list[j]])
    {
      Next(j);
      Sized(j);
      RemoveOk(list, nxt, size, base, j);
      RemoveCoalesced(list, size, j);
      forall u ensures InFree(Removed(list, j), size, u) <==> InFree(list, size, u) && !(list[j] <= u < list[j] + size[list[j]]) {
        RemoveCovers(list, size, j, u);
      }
      assert Removed(list, j)[j - 1] == list[j - 1];
    }

    /** Conservation: the sizes of the free blocks and of the live blocks add up to what sbrk() gave. */
    lemma Conservation()
      requires Valid() && freep != NULL
      ensures |core| == FreeUnits(list, size, |list|) + LiveUnits(live, base, brk)
    {
      hide Linked, Coalesced, Apart, FreeSet, LiveSet, LiveOk, CoreOk, LiveUnits, FreeUnits;
      FreeSetCounts(list, size, |list|);
      LiveSetCounts(live, list, size, base, base, brk);
      Sizes();
      var free, used := FreeSet(list, size, |list|), LiveSet(live, base, brk);
      forall u ensures (u in core <==> u in free || u in used) && !(u in free && u in used) { EachUnit(u); }
      assert core == free + used;
      assert free * used == {};
    }

    lemma Sizes()
      requires Valid() && freep != NULL
      ensures forall i | 0 <= i < |list| :: list[i] in size && size[list[i]] >= 0
      ensures forall a | a in live :: live[a] > 0
    {
      hide InFree, InLive;
    }

    /** A unit from sbrk() is in a free block or in a live one, and not in both. */
    lemma EachUnit(u: int)
      requires Valid() && freep != NULL
      requires (forall i | 0 <= i < |list| :: list[i] in size && size[list[i]] >= 0) && forall a | a in live :: live[a] > 0
      ensures u in core <==> u in FreeSet(list, size, |list|) || u in LiveSet(live, base, brk)
      ensures !(u in FreeSet(list, size, |list|) && u in LiveSet(live, base, brk))
    {
      hide Linked, Coalesced, InFree, InLive, FreeSet, LiveSet;
      FreeSetIs(u);
      LiveSetIs(u);
      if InLive(live, u) { LiveIsNotFree(u); }
    }

    lemma LiveSetIs(u: int)
      requires Valid() && freep != NULL
      ensures u in LiveSet(live, base, brk) <==> InLive(live, u)
    {
      hide Ready, InFree, Apart;
      LiveSetHas(live, base, brk, u);
      if InLive(live, u) {
        var a :| a in live && a <= u < a + live[a];
        assert InLive(live, a);
        assert a in core;
      }
    }

    lemma FreeSetIs(u: int)
      requires Valid() && freep != NULL && Apart(list, size)
      ensures u in FreeSet(list, size, |list|) <==> InFree(list, size, u)
    {
      hide Valid;
      FreeSetHas(list, size, |list|, u);
      if i :| Covers(list, size, i, u) { FreeSetAll(list, size, |list|, i, u); }
    }

    lemma LiveIsNotFree(u: int)
      requires Valid() && freep != NULL && InLive(live, u)
      ensures !InFree(list, size, u)
    {
    }
  }
}
