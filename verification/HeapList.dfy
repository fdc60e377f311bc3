/**
 * The free list of the heap allocator (umalloc.c) as a sequence of block addresses.
 *
 * Addresses count units of one header.  A block at a covers [a, a + size[a]), its header first.
 */
module HeapList {
  type Units = map<int, int>    // the size or ptr field of the header at an address

  /** The circular list through `nxt`, in address order from `base`. */
  ghost predicate Linked(list: seq<int>, nxt: Units, base: int) {
    && |list| > 0 && list[0] == base
    && (forall i, j | 0 <= i < j < |list| :: list[i] < list[j])
    && forall i | 0 <= i < |list| :: LinkAt(list, nxt, i)
  }

  ghost predicate LinkAt(list: seq<int>, nxt: Units, i: int)
    requires 0 <= i < |list|
  {
    list[i] in nxt && nxt[list[i]] == After(list, i)
  }

  /** The address that follows list[i] on the circle. */
  ghost function After(list: seq<int>, i: int): int
    requires 0 <= i < |list|
  {
    if i == |list| - 1 then list[0] else list[i + 1]
  }

  /** Only the base is empty, and blocks do not overlap. */
  ghost predicate Apart(list: seq<int>, size: Units) {
    && (forall i | 0 <= i < |list| :: list[i] in size && size[list[i]] >= 0 && (size[list[i]] == 0 <==> i == 0))
    && forall i, j | 0 <= i < j < |list| :: list[i] + size[list[i]] <= list[j]
  }

  ghost predicate Touching(list: seq<int>, size: Units, i: int) {
    0 <= i && i + 1 < |list| && list[i] in size && list[i] + size[list[i]] == list[i + 1]
  }

  /** No two free blocks are adjacent. */
  ghost predicate Coalesced(list: seq<int>, size: Units) {
    forall i :: !Touching(list, size, i)
  }

  /** Unit u is in a free block. */
  ghost predicate InFree(list: seq<int>, size: Units, u: int) {
    exists i :: Covers(list, size, i, u)
  }

  ghost predicate Covers(list: seq<int>, size: Units, i: int, u: int) {
    0 <= i < |list| && list[i] in size && list[i] <= u < list[i] + size[list[i]]
  }

  /** All units of [a, a + n) are outside free blocks. */
  ghost predicate Clear(list: seq<int>, size: Units, a: int, n: int) {
    forall i | 0 <= i < |list| && list[i] in size :: list[i] + size[list[i]] <= a || a + n <= list[i]
  }

  // ---------------------------------------------------------------- inserting

  function Inserted(list: seq<int>, t: int, bp: int): seq<int>
    requires 0 <= t < |list|
  {
    seq(|list| + 1, i requires 0 <= i <= |list| => if i <= t then list[i] else if i == t + 1 then bp else list[i - 1])
  }

  lemma InsertOk(list: seq<int>, nxt: Units, size: Units, base: int, t: int, bp: int)
    requires Linked(list, nxt, base) && Apart(list, size) && 0 <= t < |list| && LinkAt(list, nxt, t)
    requires list[t] < bp && (t + 1 < |list| ==> bp < list[t + 1])
    requires bp in size && size[bp] > 0 && Clear(list, size, bp, size[bp])
    ensures Linked(Inserted(list, t, bp), nxt[bp := nxt[list[t]]][list[t] := bp], base)
    ensures Apart(Inserted(list, t, bp), size)
  {
    InsertLinked(list, nxt, base, t, bp);
    hide Linked;
    var list' := Inserted(list, t, bp);
    assert list[t] + size[list[t]] <= bp;
    forall i, j | 0 <= i < j < |list'| ensures list'[i] in size && list'[i] + size[list'[i]] <= list'[j] {
      assert i <= t ==> list[i] + size[list[i]] <= list[t] + size[list[t]];
    }
  }

  lemma InsertLinked(list: seq<int>, nxt: Units, base: int, t: int, bp: int)
    requires Linked(list, nxt, base) && 0 <= t < |list| && LinkAt(list, nxt, t) && list[t] < bp && (t + 1 < |list| ==> bp < list[t + 1])
    ensures Linked(Inserted(list, t, bp), nxt[bp := nxt[list[t]]][list[t] := bp], base)
  {
    var list', nxt' := Inserted(list, t, bp), nxt[bp := nxt[list[t]]][list[t] := bp];
    assert forall i | t < i < |list| :: list[t + 1] <= list[i];
    forall i | 0 <= i < |list'| ensures LinkAt(list', nxt', i) {
      if i <= t { assert LinkAt(list, nxt, i); } else if i > t + 1 { assert LinkAt(list, nxt, i - 1); }
    }
  }

  lemma InsertCovers(list: seq<int>, size: Units, t: int, bp: int, u: int)
    requires 0 <= t < |list| && bp in size
    ensures InFree(Inserted(list, t, bp), size, u) <==> InFree(list, size, u) || bp <= u < bp + size[bp]
  {
    var list' := Inserted(list, t, bp);
    if InFree(list, size, u) {
      var i :| Covers(list, size, i, u);
      assert Covers(list', size, if i <= t then i else i + 1, u);
    }
    if bp <= u < bp + size[bp] { assert Covers(list', size, t + 1, u); }
    if InFree(list', size, u) {
      var i :| Covers(list', size, i, u);
      if i != t + 1 { assert Covers(list, size, if i <= t then i else i - 1, u); }
    }
  }

  lemma InsertTouches(list: seq<int>, size: Units, t: int, bp: int, i: int)
    requires 0 <= t < |list| && Coalesced(list, size) && Touching(Inserted(list, t, bp), size, i)
    ensures i == t || i == t + 1
  {
    var list' := Inserted(list, t, bp);
    assert !Touching(list, size, if i < t then i else i - 1);
  }

  // ---------------------------------------------------------------- removing

  /** The list without element i. */
  function Removed(list: seq<int>, i: int): seq<int>
    requires 0 <= i < |list|
  {
    seq(|list| - 1, j requires 0 <= j < |list| - 1 => if j < i then list[j] else list[j + 1])
  }

  lemma RemoveOk(list: seq<int>, nxt: Units, size: Units, base: int, i: int)
    requires Linked(list, nxt, base) && Apart(list, size) && 0 < i < |list| && LinkAt(list, nxt, i)
    ensures Linked(Removed(list, i), nxt[list[i - 1] := nxt[list[i]]], base) && Apart(Removed(list, i), size)
  {
    RemoveLinked(list, nxt, base, i);
    hide Linked;
    var list' := Removed(list, i);
    forall j, k | 0 <= j < k < |list'| ensures list'[j] in size && list'[j] + size[list'[j]] <= list'[k] {
      assert list'[k] == list[if k < i then k else k + 1];
    }
  }

  lemma RemoveLinked(list: seq<int>, nxt: Units, base: int, i: int)
    requires Linked(list, nxt, base) && 0 < i < |list| && LinkAt(list, nxt, i)
    ensures Linked(Removed(list, i), nxt[list[i - 1] := nxt[list[i]]], base)
  {
    var list', nxt' := Removed(list, i), nxt[list[i - 1] := nxt[list[i]]];
    forall j | 0 <= j < |list'| ensures LinkAt(list', nxt', j) {
      var k := if j < i then j else j + 1;
      assert LinkAt(list, nxt, k) && LinkAt(list, nxt, i);
    }
  }

  /** Taking a block off a coalesced list leaves it coalesced. */
  lemma RemoveCoalesced(list: seq<int>, size: Units, i: int)
    requires Apart(list, size) && Coalesced(list, size) && 0 < i < |list|
    ensures Coalesced(Removed(list, i), size)
  {
    var list' := Removed(list, i);
    forall j ensures !Touching(list', size, j) {
      assert !Touching(list, size, if j < i then j else j + 1);
    }
  }

  lemma RemoveCovers(list: seq<int>, size: Units, i: int, u: int)
    requires Apart(list, size) && 0 < i < |list|
    ensures InFree(Removed(list, i), size, u) <==> InFree(list, size, u) && !(list[i] <= u < list[i] + size[list[i]])
  {
    var list' := Removed(list, i);
    if InFree(list', size, u) {
      var j :| Covers(list', size, j, u);
      assert Covers(list, size, if j < i then j else j + 1, u);
      assert list[i] in size;
    }
    if InFree(list, size, u) && !(list[i] <= u < list[i] + size[list[i]]) {
      var j :| Covers(list, size, j, u);
      assert Covers(list', size, if j < i then j else j - 1, u);
    }
  }

  // ---------------------------------------------------------------- merging

  /** Adjacent blocks i and i + 1 become one. */
  function Merged(list: seq<int>, size: Units, i: int): Units
    requires 0 <= i && i + 1 < |list| && list[i] in size && list[i + 1] in size
  {
    size[list[i] := size[list[i]] + size[list[i + 1]]]
  }

  lemma MergeOk(list: seq<int>, nxt: Units, size: Units, base: int, i: int)
    requires Linked(list, nxt, base) && Apart(list, size) && 0 < i && Touching(list, size, i) && LinkAt(list, nxt, i + 1)
    requires forall j, k | 0 <= j < k < |list| :: list[j] < list[k]
    ensures Linked(Removed(list, i + 1), nxt[list[i] := nxt[list[i + 1]]], base)
    ensures Apart(Removed(list, i + 1), Merged(list, size, i))
  {
    var list', size' := Removed(list, i + 1), Merged(list, size, i);
    RemoveLinked(list, nxt, base, i + 1);
    hide Linked;
    assert list[i] in size && list[i + 1] in size;
    forall j, k | 0 <= j < k < |list'| ensures list'[j] in size' && list'[j] + size'[list'[j]] <= list'[k] {
      var j', k' := if j <= i then j else j + 1, if k <= i then k else k + 1;
      assert list[j'] + size[list[j']] <= list[k'];
    }
  }

  lemma MergeCovers(list: seq<int>, size: Units, i: int, u: int)
    requires Apart(list, size) && 0 <= i && Touching(list, size, i)
    ensures InFree(Removed(list, i + 1), Merged(list, size, i), u) <==> InFree(list, size, u)
  {
    var list', size' := Removed(list, i + 1), Merged(list, size, i);
    if InFree(list, size, u) {
      var j :| Covers(list, size, j, u);
      assert Covers(list', size', if j <= i then j else j - 1, u);
    }
    if InFree(list', size', u) {
      var j :| Covers(list', size', j, u);
      if j == i {
        assert Covers(list, size, i, u) || Covers(list, size, i + 1, u);
      } else {
        assert Covers(list, size, if j < i then j else j + 1, u);
      }
    }
  }

  /** After merging i with i + 1, block j touches its successor iff it, or i + 1, did before. */
  lemma MergeTouches(list: seq<int>, size: Units, i: int, j: int)
    requires Apart(list, size) && 0 <= i && Touching(list, size, i)
    ensures Touching(Removed(list, i + 1), Merged(list, size, i), j) <==> Touching(list, size, if j < i then j else j + 1)
  {
    var list', size' := Removed(list, i + 1), Merged(list, size, i);
  }

  // ---------------------------------------------------------------- free()

  ghost predicate Ordered(list: seq<int>, nxt: Units, size: Units, base: int) {
    Linked(list, nxt, base) && Apart(list, size)
  }

  /** bp can go on the list after list[t]. */
  ghost predicate Place(list: seq<int>, nxt: Units, size: Units, base: int, t: int, bp: int) {
    && Ordered(list, nxt, size, base) && Coalesced(list, size) && 0 <= t < |list| && LinkAt(list, nxt, t)
    && base < list[t] + 1 <= bp && (t + 1 < |list| ==> bp < list[t + 1] && LinkAt(list, nxt, t + 1))
    && bp in size && size[bp] > 0 && Clear(list, size, bp, size[bp])
  }

  predicate MeetsUpper(nxt: Units, size: Units, p: int, bp: int)
    requires p in nxt && bp in size
  {
    bp + size[bp] == nxt[p]
  }

  predicate MeetsLower(size: Units, p: int, bp: int)
    requires p in size
  {
    p + size[p] == bp
  }

  /** free() so far: bp is on the list after p, merged with its upper neighbour if they meet. */
  ghost predicate HalfFreed(list: seq<int>, nxt: Units, size: Units, base: int, t: int, bp: int,
                            list1: seq<int>, nxt1: Units, size1: Units)
    requires 0 <= t < |list| && bp in size
  {
    && Ordered(list1, nxt1, size1, base) && t + 1 < |list1| && list1[t] == list[t] && list1[t + 1] == bp && LinkAt(list1, nxt1, t + 1)
    && (forall i :: Touching(list1, size1, i) ==> i == t)
    && (forall u :: InFree(list1, size1, u) <==> InFree(list, size, u) || bp <= u < bp + size[bp])
    && (forall a | a in size && a != bp :: a in size1 && size1[a] == size[a])
    && bp in size1 && size1[bp] >= size[bp]
  }

  lemma FreeUpper(list: seq<int>, nxt: Units, size: Units, base: int, t: int, bp: int)
    requires Place(list, nxt, size, base, t, bp)
    ensures var p := list[t];
            if MeetsUpper(nxt, size, p, bp) then
              && nxt[p] in nxt && nxt[p] in size
              && HalfFreed(list, nxt, size, base, t, bp, Removed(Inserted(list, t, bp), t + 2),
                           nxt[bp := nxt[nxt[p]]][p := bp], size[bp := size[bp] + size[nxt[p]]])
            else
              HalfFreed(list, nxt, size, base, t, bp, Inserted(list, t, bp), nxt[bp := nxt[p]][p := bp], size)
  {
    hide Linked, Apart, Coalesced, InFree, Clear;
    var p, list0, nxt0 := list[t], Inserted(list, t, bp), nxt[bp := nxt[list[t]]][list[t] := bp];
    InsertOk(list, nxt, size, base, t, bp);
    forall u ensures InFree(list0, size, u) <==> InFree(list, size, u) || bp <= u < bp + size[bp] { InsertCovers(list, size, t, bp, u); }
    forall i | Touching(list0, size, i) ensures i == t || i == t + 1 { InsertTouches(list, size, t, bp, i); }
    Links(list0, nxt0, base, t + 1);
    UpperTouches(list, nxt, size, base, t, bp);
    if MeetsUpper(nxt, size, p, bp) {
      Links(list0, nxt0, base, t + 2);
      InOrder(list0, nxt0, base);
      MergeOk(list0, nxt0, size, base, t + 1);
      var list1, size1 := Removed(list0, t + 2), Merged(list0, size, t + 1);
      assert nxt0[bp := nxt0[nxt[p]]] == nxt[bp := nxt[nxt[p]]][p := bp];
      forall u ensures InFree(list1, size1, u) <==> InFree(list0, size, u) { MergeCovers(list0, size, t + 1, u); }
      forall i | Touching(list1, size1, i) ensures i == t { MergeTouches(list0, size, t + 1, i); }
      Links(list1, nxt0[bp := nxt0[nxt[p]]], base, t + 1);
    }
  }

  lemma Links(list: seq<int>, nxt: Units, base: int, i: int)
    requires Linked(list, nxt, base) && 0 <= i < |list|
    ensures LinkAt(list, nxt, i)
  {
  }

  lemma InOrder(list: seq<int>, nxt: Units, base: int)
    requires Linked(list, nxt, base)
    ensures forall j, k | 0 <= j < k < |list| :: list[j] < list[k]
  {
  }

  lemma UpperTouches(list: seq<int>, nxt: Units, size: Units, base: int, t: int, bp: int)
    requires Place(list, nxt, size, base, t, bp)
    ensures MeetsUpper(nxt, size, list[t], bp) <==> Touching(Inserted(list, t, bp), size, t + 1)
    ensures MeetsUpper(nxt, size, list[t], bp) ==> t + 1 < |list| && nxt[list[t]] == list[t + 1] && nxt[list[t]] in nxt && nxt[list[t]] in size
                                                      && size[nxt[list[t]]] >= 0
  {
    hide Coalesced, Clear;
  }

  /** free() done: bp's units are free, and the list is coalesced again. */
  ghost predicate Freed(list: seq<int>, size: Units, base: int, t: int, bp: int, list2: seq<int>, nxt2: Units, size2: Units)
    requires 0 <= t < |list| && bp in size
  {
    && Ordered(list2, nxt2, size2, base) && Coalesced(list2, size2) && t < |list2| && list2[t] == list[t]
    && (forall u :: InFree(list2, size2, u) <==> InFree(list, size, u) || bp <= u < bp + size[bp])
    && (forall a | a in size && a != bp && a != list[t] :: a in size2 && size2[a] == size[a])
    && Suits(list2, size2, size[bp])
  }

  /** Some free block has n units. */
  ghost predicate Suits(list: seq<int>, size: Units, n: int) {
    exists i :: Big(list, size, i, n)
  }

  ghost predicate Big(list: seq<int>, size: Units, i: int, n: int) {
    0 <= i < |list| && list[i] in size && size[list[i]] >= n
  }

  lemma FreeLower(list: seq<int>, nxt: Units, size: Units, base: int, t: int, bp: int, list1: seq<int>, nxt1: Units, size1: Units)
    requires 0 <= t < |list| && bp in size && HalfFreed(list, nxt, size, base, t, bp, list1, nxt1, size1) && base < bp
    ensures var p := list[t];
            && p in size1 && bp in nxt1 && bp in size1
            && if MeetsLower(size1, p, bp) then
                 Freed(list, size, base, t, bp, Removed(list1, t + 1), nxt1[p := nxt1[bp]], size1[p := size1[p] + size1[bp]])
               else
                 Freed(list, size, base, t, bp, list1, nxt1, size1)
  {
    hide Linked, Apart, InFree;
    var p := list[t];
    BothSized(list1, nxt1, size1, base, t);
    if MeetsLower(size1, p, bp) {
      assert Touching(list1, size1, t);
      InOrder(list1, nxt1, base);
      MergeOk(list1, nxt1, size1, base, t);
      var list2, size2 := Removed(list1, t + 1), Merged(list1, size1, t);
      forall u ensures InFree(list2, size2, u) <==> InFree(list1, size1, u) { MergeCovers(list1, size1, t, u); }
      forall i ensures !Touching(list2, size2, i) { MergeTouches(list1, size1, t, i); }
      assert Big(list2, size2, t, size[bp]);
    } else {
      assert !Touching(list1, size1, t);
      assert Big(list1, size1, t + 1, size[bp]);
    }
  }

  lemma BothSized(list: seq<int>, nxt: Units, size: Units, base: int, t: int)
    requires Ordered(list, nxt, size, base) && 0 <= t && t + 1 < |list|
    ensures list[t] in size && list[t + 1] in size && list[t + 1] in nxt
    ensures list[t] + size[list[t]] == list[t + 1] ==> t > 0
  {
    assert LinkAt(list, nxt, t + 1);
  }

  // ---------------------------------------------------------------- splitting a block

  /** The last n units of block i leave the free list; their header is written at q. */
  lemma SplitOk(list: seq<int>, nxt: Units, size: Units, base: int, i: int, n: int)
    requires Ordered(list, nxt, size, base) && Coalesced(list, size) && 0 < i < |list| && list[i] in size && 0 < n < size[list[i]]
    ensures var q := list[i] + size[list[i]] - n;
            var size' := size[list[i] := size[list[i]] - n][q := n];
            Ordered(list, nxt, size', base) && Coalesced(list, size') && q !in list
  {
    var q := list[i] + size[list[i]] - n;
    var size' := size[list[i] := size[list[i]] - n][q := n];
    hide Linked;
    forall j | 0 <= j < |list| ensures list[j] != q {
      assert j > i ==> list[i] + size[list[i]] <= list[j];
      OrderedFacts(list, nxt, size, base, i, j);
    }
    assert Apart(list, size');
    forall j ensures !Touching(list, size', j) { assert !Touching(list, size, j); }
  }

  lemma OrderedFacts(list: seq<int>, nxt: Units, size: Units, base: int, i: int, j: int)
    requires Ordered(list, nxt, size, base) && 0 <= i < |list| && 0 <= j < |list|
    ensures j < i ==> list[j] < list[i]
  {
  }

  lemma SplitCovers(list: seq<int>, nxt: Units, size: Units, base: int, i: int, n: int, u: int)
    requires Ordered(list, nxt, size, base) && Coalesced(list, size) && 0 < i < |list| && list[i] in size && 0 < n < size[list[i]]
    ensures var q := list[i] + size[list[i]] - n;
            InFree(list, size[list[i] := size[list[i]] - n][q := n], u) <==> InFree(list, size, u) && !(q <= u < q + n)
  {
    hide Coalesced;
    var q := list[i] + size[list[i]] - n;
    var size' := size[list[i] := size[list[i]] - n][q := n];
    SplitOk(list, nxt, size, base, i, n);
    if InFree(list, size', u) {
      var j :| Covers(list, size', j, u);
      assert Covers(list, size, j, u);
    }
    if InFree(list, size, u) && !(q <= u < q + n) {
      var j :| Covers(list, size, j, u);
      assert Covers(list, size', j, u);
    }
  }

  // ---------------------------------------------------------------- units

  /** A range none of whose units is free is clear of the free blocks. */
  lemma ClearByUnits(list: seq<int>, nxt: Units, size: Units, base: int, a: int, n: int)
    requires Ordered(list, nxt, size, base) && base < a && 0 < n && forall u | a <= u < a + n :: !InFree(list, size, u)
    ensures Clear(list, size, a, n)
  {
    forall i | 0 <= i < |list| && list[i] in size ensures list[i] + size[list[i]] <= a || a + n <= list[i] {
      var u := if list[i] < a then a else list[i];
      assert Covers(list, size, i, u) ==> InFree(list, size, u);
    }
  }

  /** The list has a place for every address above the base that is not on it. */
  lemma {:induction false} PlaceExists(list: seq<int>, bp: int, n: int) returns (t: int)
    requires 0 < n <= |list| && list[0] < bp && bp !in list
    ensures 0 <= t < n && list[t] < bp && (t + 1 < n ==> bp < list[t + 1])
    decreases n
  {
    if n == 1 || list[n - 1] < bp { return n - 1; }
    assert list[n - 1] in list;
    t := PlaceExists(list, bp, n - 1);
  }

  /** The units on the free list, added up. */
  ghost function FreeUnits(list: seq<int>, size: Units, n: nat): int
    requires n <= |list|
  {
    if n == 0 then 0 else FreeUnits(list, size, n - 1) + if list[n - 1] in size then size[list[n - 1]] else 0
  }
}
