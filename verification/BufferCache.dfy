/**
 * The buffer cache (bio.c): NBUF buffers on a doubly linked list in order of use, with
 * reference counts.  The log pins buffers by raising their count.
 */
module BufferCache {
  import opened Blocks
  import opened Params

  const NBUF: int := MAXOPBLOCKS * 3
  const ROOTDEV: int := 1
  const HEAD: int := NBUF          // the list node bcache.head

  /** struct buf without its list links; `locked` is the buffer's sleep lock. */
  datatype Buf = Buf(valid: bool, dev: int, blockno: int, locked: bool, refcnt: int, data: Block)

  predicate HasKey(b: Buf, dev: int, blockno: int) {
    b.dev == dev && b.blockno == blockno
  }

  /** Buffer b holds the contents of a block of the root disk. */
  predicate Caches(b: Buf, blockno: int) {
    b.valid && HasKey(b, ROOTDEV, blockno)
  }

  // ---------------------------------------------------------------- the LRU list

  /** `next` and `prev` link the head and all buffers into one circle, in the order of `ring`. */
  ghost predicate Ring(next: seq<int>, prev: seq<int>, ring: seq<int>) {
    && |next| == |prev| == |ring| == NBUF + 1
    && ring[0] == HEAD
    && (forall k | 0 <= k <= NBUF :: 0 <= ring[k] <= NBUF)
    && (forall j, k | 0 <= j < k <= NBUF :: ring[j] != ring[k])
    && (forall b | 0 <= b <= NBUF :: b in ring)
    && (forall k | 0 <= k < NBUF :: next[ring[k]] == ring[k + 1])
    && (forall k | 0 <= k < NBUF :: prev[ring[k + 1]] == ring[k])
    && next[ring[NBUF]] == HEAD && prev[HEAD] == ring[NBUF]
  }

  /** The order of use after the node at position p becomes the most recent. */
  ghost function MoveToFront(ring: seq<int>, p: int): seq<int>
    requires 0 < p < |ring|
  {
    [ring[0], ring[p]] + ring[1..p] + ring[p + 1..]
  }

  ghost predicate MovedToFront(before: seq<int>, after: seq<int>, b: int) {
    exists p :: 0 < p < |before| && before[p] == b && after == MoveToFront(before, p)
  }

  lemma MoveToFrontNodes(ring: seq<int>, p: int, b: int)
    requires 0 < p < |ring| && b in ring
    ensures b in MoveToFront(ring, p)
  {
    var r := MoveToFront(ring, p);
    var k :| 0 <= k < |ring| && ring[k] == b;
    assert b == if k == 0 then r[0] else if k < p then r[k + 1] else if k == p then r[1] else r[k];
  }

  /** brelse()'s pointer writes: unlink b, then link it in after the head. */
  function Unlinked(next: seq<int>, prev: seq<int>, b: int): (seq<int>, seq<int>)
    requires |next| == |prev| == NBUF + 1 && 0 <= b < NBUF
    requires 0 <= next[b] <= NBUF && 0 <= prev[b] <= NBUF
  {
    (next[prev[b] := next[b]], prev[next[b] := prev[b]])
  }

  function LinkedFirst(next: seq<int>, prev: seq<int>, b: int): (seq<int>, seq<int>)
    requires |next| == |prev| == NBUF + 1 && 0 <= b < NBUF && 0 <= next[HEAD] <= NBUF
  {
    (next[b := next[HEAD]][HEAD := b], prev[b := HEAD][next[HEAD] := b])
  }

  /** `rest` without b is linked as a circle; b itself is loose. */
  ghost predicate Loose(next: seq<int>, prev: seq<int>, rest: seq<int>, b: int) {
    && |next| == |prev| == NBUF + 1 && |rest| == NBUF
    && rest[0] == HEAD
    && (forall k | 0 <= k < NBUF :: 0 <= rest[k] <= NBUF && rest[k] != b)
    && (forall j, k | 0 <= j < k < NBUF :: rest[j] != rest[k])
    && (forall k | 0 <= k < NBUF - 1 :: next[rest[k]] == rest[k + 1])
    && (forall k | 0 <= k < NBUF - 1 :: prev[rest[k + 1]] == rest[k])
    && next[rest[NBUF - 1]] == HEAD && prev[HEAD] == rest[NBUF - 1]
  }

  /** The ring without the node at position p. */
  ghost function Without(ring: seq<int>, p: int): (rest: seq<int>)
    requires 0 < p < |ring|
    ensures |rest| == |ring| - 1
    ensures forall k | 0 <= k < |rest| :: rest[k] == if k < p then ring[k] else ring[k + 1]
  {
    ring[..p] + ring[p + 1..]
  }

  /** The neighbours of the node at position p. */
  lemma Neighbours(next: seq<int>, prev: seq<int>, ring: seq<int>, p: int)
    requires Ring(next, prev, ring) && 0 < p <= NBUF
    ensures 0 <= ring[p] < NBUF && prev[ring[p]] == ring[p - 1] && next[ring[p]] == if p < NBUF then ring[p + 1] else HEAD
  {
    assert prev[ring[(p - 1) + 1]] == ring[p - 1];
  }

  lemma UnlinkNext(next: seq<int>, prev: seq<int>, ring: seq<int>, p: int, k: int)
    requires Ring(next, prev, ring) && 0 < p <= NBUF && 0 <= k < NBUF
    ensures var rest, b := Without(ring, p), ring[p];
            && 0 <= b < NBUF && 0 <= prev[b] <= NBUF
            && next[prev[b] := next[b]][rest[k]] == if k < NBUF - 1 then rest[k + 1] else HEAD
  {
    Neighbours(next, prev, ring, p);
    var at := if k < p then k else k + 1;
    assert next[ring[at]] == if at < NBUF then ring[at + 1] else HEAD;
    assert at != p - 1 ==> ring[at] != ring[p - 1];
  }

  lemma UnlinkPrev(next: seq<int>, prev: seq<int>, ring: seq<int>, p: int, k: int)
    requires Ring(next, prev, ring) && 0 < p <= NBUF && 0 <= k < NBUF
    ensures var rest, b := Without(ring, p), ring[p];
            && 0 <= b < NBUF && 0 <= next[b] <= NBUF
            && prev[next[b] := prev[b]][rest[k]] == if k > 0 then rest[k - 1] else rest[NBUF - 1]
  {
    Neighbours(next, prev, ring, p);
    var at := if k < p then k else k + 1;
    assert prev[ring[at]] == if at > 0 then ring[at - 1] else ring[NBUF] by { if at > 0 { Neighbours(next, prev, ring, at); } }
    var after := if p < NBUF then p + 1 else 0;
    assert at != after ==> ring[at] != ring[after];
  }

  lemma UnlinkRing(next: seq<int>, prev: seq<int>, ring: seq<int>, p: int)
    requires Ring(next, prev, ring) && 0 < p <= NBUF
    ensures var b := ring[p];
            && 0 <= b < NBUF && 0 <= next[b] <= NBUF && 0 <= prev[b] <= NBUF
            && Loose(Unlinked(next, prev, b).0, Unlinked(next, prev, b).1, Without(ring, p), b)
  {
    Neighbours(next, prev, ring, p);
    var b, rest := ring[p], Without(ring, p);
    UnlinkedNodes(next, prev, ring, p);
    hide Ring;
    var links := Unlinked(next, prev, b);
    forall k | 0 <= k < NBUF
      ensures links.0[rest[k]] == if k < NBUF - 1 then rest[k + 1] else HEAD
      ensures links.1[rest[k]] == if k > 0 then rest[k - 1] else rest[NBUF - 1]
    {
      UnlinkNext(next, prev, ring, p, k);
      UnlinkPrev(next, prev, ring, p, k);
    }
    forall k | 0 <= k < NBUF - 1 ensures links.1[rest[k + 1]] == rest[k] { }
  }

  lemma UnlinkedNodes(next: seq<int>, prev: seq<int>, ring: seq<int>, p: int)
    requires Ring(next, prev, ring) && 0 < p <= NBUF
    ensures var rest := Without(ring, p);
            && |rest| == NBUF && rest[0] == HEAD && (forall k | 0 <= k < NBUF :: 0 <= rest[k] <= NBUF && rest[k] != ring[p])
            && (forall j, k | 0 <= j < k < NBUF :: rest[j] != rest[k])
  {
  }

  lemma LinkRing(next: seq<int>, prev: seq<int>, rest: seq<int>, b: int, ring: seq<int>)
    requires Loose(next, prev, rest, b) && 0 <= b < NBUF
    requires |ring| == NBUF + 1 && ring[0] == HEAD && ring[1] == b && ring[2..] == rest[1..]
    requires forall x | 0 <= x <= NBUF :: x in ring
    ensures 0 <= next[HEAD] <= NBUF
            && Ring(LinkedFirst(next, prev, b).0, LinkedFirst(next, prev, b).1, ring)
  {
    assert next[rest[0]] == rest[1];
    forall k | 2 <= k <= NBUF ensures ring[k] == rest[k - 1] { assert ring[2..][k - 2] == rest[1..][k - 2]; }
  }

  // ---------------------------------------------------------------- what the cache keeps

  /** A device other than 0 never has two buffers for one block. */
  ghost predicate Unique(bufs: seq<Buf>) {
    forall i, j | 0 <= i < j < |bufs| && bufs[i].dev == bufs[j].dev && bufs[i].dev != 0 ::
      bufs[i].blockno != bufs[j].blockno
  }

  /** The lock holder and every pin hold one reference each; `held` are the locked blocks. */
  ghost predicate Counted(bufs: seq<Buf>, pins: multiset<int>, held: set<int>) {
    forall i | 0 <= i < |bufs| ::
      && bufs[i].refcnt >= (if bufs[i].locked then 1 else 0)
      && (bufs[i].locked ==> bufs[i].valid)
      && (bufs[i].dev == ROOTDEV ==>
            && bufs[i].refcnt >= pins[bufs[i].blockno] + (if bufs[i].locked then 1 else 0)
            && (bufs[i].locked <==> bufs[i].blockno in held))
  }

  ghost predicate Cached(bufs: seq<Buf>, b: int) {
    exists i :: 0 <= i < |bufs| && Caches(bufs[i], b)
  }

  /** Cached blocks have the logical contents; the disk differs only where a buffer is kept. */
  ghost predicate Coherent(bufs: seq<Buf>, pins: multiset<int>, held: set<int>, disk: Disk, view: Disk) {
    && view.Keys == disk.Keys
    && (forall i | 0 <= i < |bufs| && bufs[i].valid && bufs[i].dev == ROOTDEV ::
          bufs[i].blockno in view && bufs[i].data == view[bufs[i].blockno])
    && (forall b | b in disk && view[b] != disk[b] :: b in pins || b in held)
    && (forall b | b in pins || b in held :: Cached(bufs, b))
  }

  /** The recycled buffer loses nothing: an unreferenced buffer is clean. */
  lemma RecycleSafe(bufs: seq<Buf>, pins: multiset<int>, held: set<int>, disk: Disk, view: Disk,
                    i: int, dev: int, blockno: int)
    requires Kept(bufs, pins, held, disk, view)
    requires 0 <= i < |bufs| && bufs[i].refcnt == 0
    requires forall j | 0 <= j < |bufs| :: !HasKey(bufs[j], dev, blockno)
    ensures Kept(bufs[i := bufs[i].(dev := dev, blockno := blockno, valid := false, refcnt := 1)], pins, held, disk, view)
  {
    var bufs' := bufs[i := bufs[i].(dev := dev, blockno := blockno, valid := false, refcnt := 1)];
    forall b | b in pins || b in held ensures Cached(bufs', b) {
      var j :| 0 <= j < |bufs| && Caches(bufs[j], b);
      assert j != i;
      assert Caches(bufs'[j], b);
    }
    assert dev == ROOTDEV ==> (blockno in pins || blockno in held ==> Cached(bufs, blockno));
  }

  ghost predicate Kept(bufs: seq<Buf>, pins: multiset<int>, held: set<int>, disk: Disk, view: Disk) {
    Unique(bufs) && Counted(bufs, pins, held) && Coherent(bufs, pins, held, disk, view)
  }

  /** Locking an unlocked buffer and reading it if need be: what is read is what must be seen. */
  lemma TakeSafe(bufs: seq<Buf>, pins: multiset<int>, held: set<int>, disk: Disk, view: Disk, i: int)
    requires Kept(bufs, pins, held, disk, view)
    requires 0 <= i < |bufs| && bufs[i].dev == ROOTDEV && bufs[i].blockno in disk
    requires !bufs[i].locked && bufs[i].refcnt > pins[bufs[i].blockno]
    ensures var b := bufs[i].blockno;
            && b in view && (if bufs[i].valid then bufs[i].data else disk[b]) == view[b]
            && Kept(bufs[i := bufs[i].(locked := true, valid := true, data := view[b])], pins, held + {b}, disk, view)
  {
    var b := bufs[i].blockno;
    assert b in pins || b in held ==> Cached(bufs, b);
    var bufs' := bufs[i := bufs[i].(locked := true, valid := true, data := view[b])];
    KeptCached(bufs, bufs');
    assert Caches(bufs'[i], b);
  }

  /** One reference more than before is one more than the pins account for. */
  lemma Referenced(bufs: seq<Buf>, pins: multiset<int>, held: set<int>, disk: Disk, view: Disk, r: int, blockno: int)
    requires Kept(bufs, pins, held, disk, view) && 0 <= r < |bufs| && blockno !in held
    requires HasKey(bufs[r], ROOTDEV, blockno) || forall j | 0 <= j < |bufs| :: !HasKey(bufs[j], ROOTDEV, blockno)
    ensures bufs[r].refcnt + 1 > pins[blockno]
    ensures HasKey(bufs[r], ROOTDEV, blockno) || bufs[r].refcnt == 0 ==> !bufs[r].locked
    ensures view.Keys == disk.Keys
  {
    assert blockno in pins ==> Cached(bufs, blockno);
  }

  /** Releasing a buffer that is pinned or clean loses no contents. */
  lemma ReleaseSafe(bufs: seq<Buf>, pins: multiset<int>, held: set<int>, disk: Disk, view: Disk, i: int)
    requires Kept(bufs, pins, held, disk, view)
    requires 0 <= i < |bufs| && bufs[i].dev == ROOTDEV && bufs[i].locked
    requires bufs[i].blockno in pins || disk[bufs[i].blockno] == bufs[i].data
    ensures Kept(bufs[i := bufs[i].(locked := false, refcnt := bufs[i].refcnt - 1)], pins,
                 held - {bufs[i].blockno}, disk, view)
  {
    KeptCached(bufs, bufs[i := bufs[i].(locked := false, refcnt := bufs[i].refcnt - 1)]);
  }

  lemma UnpinSafe(bufs: seq<Buf>, pins: multiset<int>, held: set<int>, disk: Disk, view: Disk, i: int)
    requires Kept(bufs, pins, held, disk, view)
    requires 0 <= i < |bufs| && bufs[i].dev == ROOTDEV && bufs[i].locked && bufs[i].blockno in pins
    ensures Kept(bufs[i := bufs[i].(refcnt := bufs[i].refcnt - 1)], pins - multiset{bufs[i].blockno},
                 held, disk, view)
  {
    KeptCached(bufs, bufs[i := bufs[i].(refcnt := bufs[i].refcnt - 1)]);
  }

  class BCache {
    var bufs: seq<Buf>
    var next: seq<int>
    var prev: seq<int>
    var disk: Disk
    ghost var ring: seq<int>        // list nodes in order of use, from the head
    ghost var pins: multiset<int>   // blocks pinned by the log
    ghost var held: set<int>        // blocks whose buffer is locked
    ghost var view: Disk            // what a reader must see
    ghost var writes: seq<Write>    // every block write so far

    ghost predicate Valid()
      reads this
    {
      && |bufs| == NBUF
      && Ring(next, prev, ring)
      && Kept(bufs, pins, held, disk, view)
    }

    /** binit() on a disk: nothing cached, every buffer keyed (0, 0). */
    constructor (d: Disk)
      ensures Valid() && disk == d && view == d && writes == []
      ensures pins == multiset{} && held == {}
      ensures forall i | 0 <= i < NBUF :: bufs[i].refcnt == 0 && !bufs[i].valid && HasKey(bufs[i], 0, 0)
      ensures forall k | 0 < k <= NBUF :: ring[k] == NBUF - k
    {
      bufs := seq(NBUF, i => Buf(false, 0, 0, false, 0, Block([])));
      disk, view, writes, pins, held := d, d, [], multiset{}, {};
      var nx, pv;
      ghost var rg;
      nx, pv, rg := LinkAll();
      next, prev, ring := nx, pv, rg;
    }

    /** bget()'s first scan, from the most recently used end: HEAD if no buffer has the key. */
    method FindKey(dev: int, blockno: int) returns (b: int, ghost p: int)
      requires Valid()
      ensures b != HEAD ==> 0 < p <= NBUF && 0 <= b < NBUF && b == ring[p] && HasKey(bufs[b], dev, blockno)
                            && forall q | 0 < q < p :: !HasKey(bufs[ring[q]], dev, blockno)
      ensures b == HEAD <==> forall j | 0 <= j < NBUF :: !HasKey(bufs[j], dev, blockno)
    {
      b := next[HEAD];
      p := 1;
      assert next[ring[0]] == ring[1];
      while b != HEAD
        invariant 0 < p <= NBUF + 1 && b == (if p <= NBUF then ring[p] else HEAD)
        invariant forall q | 0 < q < p :: !HasKey(bufs[ring[q]], dev, blockno)
        decreases NBUF + 1 - p
      {
        if bufs[b].dev == dev && bufs[b].blockno == blockno { return; }
        b := next[b];
        p := p + 1;
      }
      assert p == NBUF + 1;
      forall j | 0 <= j < NBUF ensures !HasKey(bufs[j], dev, blockno) {
        assert j in ring;
        var q :| 0 <= q < |ring| && ring[q] == j;
      }
    }

    /** bget()'s second scan, from the least recently used end: HEAD if every buffer is in use. */
    method FindFree() returns (b: int, ghost p: int)
      requires Valid()
      ensures b != HEAD ==> 0 < p <= NBUF && 0 <= b < NBUF && b == ring[p] && bufs[b].refcnt == 0
                            && forall q | p < q <= NBUF :: bufs[ring[q]].refcnt > 0
      ensures b == HEAD <==> forall j | 0 <= j < NBUF :: bufs[j].refcnt > 0
    {
      b := prev[HEAD];
      p := NBUF;
      while b != HEAD
        invariant 0 <= p <= NBUF && b == ring[p]
        invariant forall q | p < q <= NBUF :: bufs[ring[q]].refcnt > 0
        decreases p
      {
        if bufs[b].refcnt == 0 { return; }
        assert prev[ring[(p - 1) + 1]] == ring[p - 1];
        b := prev[b];
        p := p - 1;
      }
      assert p == 0;
      forall j | 0 <= j < NBUF ensures bufs[j].refcnt > 0 {
        assert j in ring;
        var q :| 0 <= q < |ring| && ring[q] == j;
      }
    }

    /**
     * bget(): the buffer for a block, with one more reference; -1 for panic("no buffers").
     * A hit is the first match in order of use, a miss recycles the least recently used buffer
     * that nobody references.
     */
    method BGet(dev: int, blockno: int) returns (r: int, ghost p: int)
      requires Valid()
      modifies this`bufs
      ensures Valid()
      ensures -1 <= r < NBUF
      ensures r == -1 <==> forall j | 0 <= j < NBUF :: old(bufs)[j].refcnt > 0 && !HasKey(old(bufs)[j], dev, blockno)
      ensures r == -1 ==> bufs == old(bufs)
      ensures r >= 0 ==> 0 < p <= NBUF && ring[p] == r
      ensures r >= 0 && HasKey(old(bufs)[r], dev, blockno) ==>
                && bufs == old(bufs)[r := old(bufs)[r].(refcnt := old(bufs)[r].refcnt + 1)]
                && (forall q | 0 < q < p :: !HasKey(old(bufs)[ring[q]], dev, blockno))
      ensures r >= 0 && !HasKey(old(bufs)[r], dev, blockno) ==>
                && old(bufs)[r].refcnt == 0
                && bufs == old(bufs)[r := old(bufs)[r].(dev := dev, blockno := blockno, valid := false, refcnt := 1)]
                && (forall j | 0 <= j < NBUF :: !HasKey(old(bufs)[j], dev, blockno))
                && (forall q | p < q <= NBUF :: old(bufs)[ring[q]].refcnt > 0)
    {
      r, p := FindKey(dev, blockno);
      if r != HEAD {
        bufs := bufs[r := bufs[r].(refcnt := bufs[r].refcnt + 1)];
        KeptCached(old(bufs), bufs);
        return;
      }
      r, p := FindFree();
      if r != HEAD {
        RecycleSafe(bufs, pins, held, disk, view, r, dev, blockno);
        bufs := bufs[r := bufs[r].(dev := dev, blockno := blockno, valid := false, refcnt := 1)];
        return;
      }
      r := -1;
    }

    /**
     * bread() once its reference is taken: lock the buffer (the caller waits until that is
     * possible) and read the block if the buffer does not hold it yet.
     */
    method Take(i: int)
      requires Valid() && 0 <= i < NBUF && bufs[i].dev == ROOTDEV && bufs[i].blockno in disk
      requires !bufs[i].locked && bufs[i].refcnt > pins[bufs[i].blockno]
      modifies this`bufs, this`held
      ensures Valid()
      ensures bufs == old(bufs)[i := old(bufs)[i].(locked := true, valid := true, data := view[old(bufs)[i].blockno])]
      ensures held == old(held) + {bufs[i].blockno}
    {
      hide Ring, Kept;
      TakeSafe(bufs, pins, held, disk, view, i);
      ghost var taken := bufs[i := bufs[i].(locked := true, valid := true, data := view[bufs[i].blockno])];
      if !bufs[i].valid {
        bufs := bufs[i := bufs[i].(data := disk[bufs[i].blockno], valid := true)];
      }
      bufs := bufs[i := bufs[i].(locked := true)];
      assert bufs == taken;
      held := held + {bufs[i].blockno};
    }

    /** bread(): a locked buffer with the block's contents; -1 for panic("no buffers"). */
    method Bread(blockno: int) returns (r: int)
      requires Valid() && blockno in disk && blockno !in held
      modifies this`bufs, this`held
      ensures Valid() && -1 <= r < NBUF
      ensures r == -1 <==> forall j | 0 <= j < NBUF :: old(bufs)[j].refcnt > 0 && !HasKey(old(bufs)[j], ROOTDEV, blockno)
      ensures r == -1 ==> bufs == old(bufs) && held == old(held)
      ensures r >= 0 ==> bufs == old(bufs)[r := Buf(true, ROOTDEV, blockno, true, old(bufs)[r].refcnt + 1, view[blockno])]
      ensures r >= 0 ==> held == old(held) + {blockno}
      ensures r >= 0 && old(bufs)[r].refcnt > 0 ==> HasKey(old(bufs)[r], ROOTDEV, blockno)
    {
      hide Ring, Unique, Counted, Coherent;
      ghost var p;
      r, p := BGet(ROOTDEV, blockno);
      if r >= 0 {
        Referenced(old(bufs), pins, held, disk, view, r, blockno);
        ghost var got := bufs[r];
        assert got.refcnt == old(bufs)[r].refcnt + 1 && HasKey(got, ROOTDEV, blockno) && !got.locked;
        assert bufs == old(bufs)[r := got];
        Take(r);
        assert bufs == old(bufs)[r := Buf(true, ROOTDEV, blockno, true, got.refcnt, view[blockno])];
      }
    }

    /** The holder changes the contents of its buffer; readers must see that from now on. */
    method Modify(i: int, d: Block)
      requires Valid() && 0 <= i < NBUF && bufs[i].dev == ROOTDEV && bufs[i].locked
      modifies this`bufs, this`view
      ensures Valid()
      ensures bufs == old(bufs)[i := old(bufs)[i].(data := d)] && view == old(view)[bufs[i].blockno := d]
    {
      bufs := bufs[i := bufs[i].(data := d)];
      view := view[bufs[i].blockno := d];
      KeptCached(old(bufs), bufs);
    }

    /** bwrite(): one atomic block write; the caller holds the lock or the kernel panics. */
    method Bwrite(i: int)
      requires Valid() && 0 <= i < NBUF && bufs[i].dev == ROOTDEV && bufs[i].locked
      modifies this`disk, this`writes
      ensures Valid()
      ensures disk == old(disk)[bufs[i].blockno := bufs[i].data]
      ensures writes == old(writes) + [Write(bufs[i].blockno, bufs[i].data)]
    {
      disk := disk[bufs[i].blockno := bufs[i].data];
      writes := writes + [Write(bufs[i].blockno, bufs[i].data)];
    }

    /** memmove() into a held buffer followed by bwrite(). */
    method Store(i: int, d: Block)
      requires Valid() && 0 <= i < NBUF && bufs[i].dev == ROOTDEV && bufs[i].locked
      modifies this`bufs, this`view, this`disk, this`writes
      ensures Valid()
      ensures bufs == old(bufs)[i := old(bufs)[i].(data := d)]
      ensures view == old(view)[bufs[i].blockno := d] && disk == old(disk)[bufs[i].blockno := d]
      ensures writes == old(writes) + [Write(bufs[i].blockno, d)]
    {
      hide Ring, Kept;
      Modify(i, d);
      Bwrite(i);
    }

    /**
     * brelse(): unlock, drop the reference, and move a buffer nobody waits for to the front.
     * The caller has written its changes to the disk or pinned the buffer through the log.  The one
     * release without either, by a writei() whose copy failed, is in module FileSystem: what it
     * leaves in the buffer is lost when the buffer is recycled.
     */
    method Brelse(i: int)
      requires Valid() && 0 <= i < NBUF && bufs[i].dev == ROOTDEV && bufs[i].locked
      requires bufs[i].blockno in pins || disk[bufs[i].blockno] == bufs[i].data
      modifies this`bufs, this`next, this`prev, this`ring, this`held
      ensures Valid()
      ensures bufs == old(bufs)[i := old(bufs)[i].(locked := false, refcnt := old(bufs)[i].refcnt - 1)]
      ensures held == old(held) - {bufs[i].blockno}
      ensures bufs[i].refcnt > 0 ==> ring == old(ring)
      ensures bufs[i].refcnt == 0 ==> MovedToFront(old(ring), ring, i)
    {
      hide Ring, Kept, MovedToFront;
      ReleaseSafe(bufs, pins, held, disk, view, i);
      bufs := bufs[i := bufs[i].(locked := false)];
      held := held - {bufs[i].blockno};
      bufs := bufs[i := bufs[i].(refcnt := bufs[i].refcnt - 1)];
      assert bufs == old(bufs)[i := old(bufs)[i].(locked := false, refcnt := old(bufs)[i].refcnt - 1)];
      if bufs[i].refcnt == 0 {
        MoveFirst(i);
      }
    }

    /** The list surgery in brelse(): take buffer i out and put it back right after the head. */
    method MoveFirst(i: int)
      requires Ring(next, prev, ring) && 0 <= i < NBUF
      modifies this`next, this`prev, this`ring
      ensures MovedToFront(old(ring), ring, i)
      ensures Ring(next, prev, ring)
    {
      assert i in ring;
      ghost var p :| 0 <= p < |ring| && ring[p] == i;
      UnlinkRing(next, prev, ring, p);
      ghost var loose := Unlinked(next, prev, i);
      ghost var ring' := MoveToFront(ring, p);
      forall x | 0 <= x <= NBUF ensures x in ring' { MoveToFrontNodes(ring, p, x); }
      LinkRing(loose.0, loose.1, Without(ring, p), i, ring');
      prev := prev[next[i] := prev[i]];
      next := next[prev[i] := next[i]];
      next := next[i := next[HEAD]];
      prev := prev[i := HEAD];
      prev := prev[next[HEAD] := i];
      next := next[HEAD := i];
      ring := ring';
    }

    /** bpin(): the log keeps this buffer in the cache. */
    method Bpin(i: int)
      requires Valid() && 0 <= i < NBUF && bufs[i].dev == ROOTDEV && bufs[i].valid
      modifies this`bufs, this`pins
      ensures Valid()
      ensures bufs == old(bufs)[i := old(bufs)[i].(refcnt := old(bufs)[i].refcnt + 1)]
      ensures pins == old(pins) + multiset{bufs[i].blockno}
    {
      bufs := bufs[i := bufs[i].(refcnt := bufs[i].refcnt + 1)];
      pins := pins + multiset{bufs[i].blockno};
      KeptCached(old(bufs), bufs);
      assert Caches(bufs[i], bufs[i].blockno);
    }

    /** bunpin(), by a holder of the buffer. */
    method Bunpin(i: int)
      requires Valid() && 0 <= i < NBUF && bufs[i].dev == ROOTDEV && bufs[i].locked && bufs[i].blockno in pins
      modifies this`bufs, this`pins
      ensures Valid()
      ensures bufs == old(bufs)[i := old(bufs)[i].(refcnt := old(bufs)[i].refcnt - 1)]
      ensures pins == old(pins) - multiset{bufs[i].blockno}
    {
      hide Ring, Unique, Counted, Coherent;
      UnpinSafe(bufs, pins, held, disk, view, i);
      bufs := bufs[i := bufs[i].(refcnt := bufs[i].refcnt - 1)];
      pins := pins - multiset{bufs[i].blockno};
    }
  }

  /** next/prev after binit(): each buffer is linked in after the head, so the last is first. */
  method LinkAll() returns (next: seq<int>, prev: seq<int>, ghost ring: seq<int>)
    ensures Ring(next, prev, ring) && forall k | 0 < k <= NBUF :: ring[k] == NBUF - k
  {
    next := seq(NBUF + 1, i => HEAD);
    prev := next;
    ring := [HEAD];
    var b := 0;
    while b < NBUF
      invariant 0 <= b <= NBUF && |next| == |prev| == NBUF + 1 && |ring| == b + 1
      invariant ring[0] == HEAD && forall k | 0 < k <= b :: ring[k] == b - k
      invariant forall k | 0 <= k < b :: next[ring[k]] == ring[k + 1]
      invariant forall k | 0 <= k < b :: prev[ring[k + 1]] == ring[k]
      invariant next[ring[b]] == HEAD && prev[HEAD] == ring[b]
    {
      ghost var old_ring := ring;
      assert next[HEAD] == if b == 0 then HEAD else ring[1];
      next := next[b := next[HEAD]];
      prev := prev[b := HEAD];
      prev := prev[next[HEAD] := b];
      next := next[HEAD := b];
      ring := [HEAD, b] + ring[1..];
      forall k | 2 <= k <= b + 1 ensures ring[k] == old_ring[k - 1] { }
      b := b + 1;
    }
    forall x | 0 <= x <= NBUF ensures x in ring { assert x == if x == HEAD then ring[0] else ring[NBUF - x]; }
  }

  /** Buffers that keep key, validity and data keep every cached block cached. */
  lemma KeptCached(bufs: seq<Buf>, bufs': seq<Buf>)
    requires |bufs'| == |bufs|
    requires forall i | 0 <= i < |bufs| :: bufs[i].valid ==> bufs'[i].valid && HasKey(bufs'[i], bufs[i].dev, bufs[i].blockno)
    ensures forall b | Cached(bufs, b) :: Cached(bufs', b)
  {
    forall b | Cached(bufs, b) ensures Cached(bufs', b) {
      var j :| 0 <= j < |bufs| && Caches(bufs[j], b);
      assert Caches(bufs'[j], b);
    }
  }
}
