/**
 * The log itself (log.c), running on the buffer cache.  Each method is proved to issue exactly
 * the block writes that module LogCrash reasons about.
 */
module WriteAheadLog {
  import opened Blocks
  import opened LogCrash
  import opened Params
  import opened BufferCache
  import Counting
  import LogAdmission

  /** Some buffer is unreferenced, so that one more block can be brought in. */
  ghost predicate Room(bufs: seq<Buf>) {
    exists j :: 0 <= j < |bufs| && bufs[j].refcnt == 0
  }

  /** A buffer has the key of block b. */
  ghost predicate HasBuf(bufs: seq<Buf>, b: int) {
    exists j :: 0 <= j < |bufs| && HasKey(bufs[j], ROOTDEV, b)
  }

  /** bget() of block b does not panic. */
  ghost predicate CanGet(bufs: seq<Buf>, b: int) { Room(bufs) || HasBuf(bufs, b) }

  /** commit() of n blocks finds a buffer for each block of the log that it uses. */
  ghost predicate Ready(bufs: seq<Buf>, start: int, n: int) {
    Room(bufs) || forall t | start <= t <= start + n :: HasBuf(bufs, t)
  }

  lemma ReadyCanGet(bufs: seq<Buf>, start: int, n: int, t: int)
    requires Ready(bufs, start, n) && start <= t <= start + n
    ensures CanGet(bufs, t)
  {
    hide HasBuf, Room;
  }

  /** bget() does not panic for blocks lo..hi. */
  ghost predicate AllGet(bufs: seq<Buf>, lo: int, hi: int) { forall t | lo <= t <= hi :: CanGet(bufs, t) }

  lemma NotAllGet(bufs: seq<Buf>, lo: int, hi: int, t: int)
    requires lo <= t <= hi && !CanGet(bufs, t)
    ensures !AllGet(bufs, lo, hi)
  {
    hide CanGet;
  }

  lemma ReadyIff(bufs: seq<Buf>, start: int, n: nat)
    ensures Ready(bufs, start, n) <==> CanGet(bufs, start) && AllGet(bufs, start + 1, start + n)
  {
    hide HasBuf, Room;
    if !Room(bufs) && CanGet(bufs, start) && AllGet(bufs, start + 1, start + n) {
      forall t | start <= t <= start + n ensures HasBuf(bufs, t) { assert CanGet(bufs, t); }
    }
  }

  /** No reference is gained, and referenced buffers stay with their block. */
  ghost predicate NoMoreRefs(before: seq<Buf>, after: seq<Buf>) {
    && |before| == |after|
    && forall j | 0 <= j < |before| ::
         after[j].refcnt <= before[j].refcnt && (before[j].refcnt > 0 ==> HasKey(after[j], before[j].dev, before[j].blockno))
  }

  /** No reference is gained or lost either. */
  ghost predicate SameRefs(before: seq<Buf>, after: seq<Buf>) {
    NoMoreRefs(before, after) && forall j | 0 <= j < |before| :: after[j].refcnt == before[j].refcnt
  }

  lemma SameRefsRefl(bufs: seq<Buf>)
    ensures SameRefs(bufs, bufs)
  {
  }

  lemma SameRefsTrans(b0: seq<Buf>, b1: seq<Buf>, b2: seq<Buf>)
    requires SameRefs(b0, b1) && SameRefs(b1, b2)
    ensures SameRefs(b0, b2)
  {
  }

  lemma ReadyKept(before: seq<Buf>, after: seq<Buf>, start: int, n: int)
    requires NoMoreRefs(before, after) && Ready(before, start, n) && NonNegative(before) && NonNegative(after)
    ensures Ready(after, start, n)
  {
    hide HasBuf;
    if Room(before) {
      RoomKept(before, after);
    } else {
      forall t | start <= t <= start + n ensures HasBuf(after, t) { BufKept(before, after, t); }
    }
  }

  lemma BufKept(before: seq<Buf>, after: seq<Buf>, t: int)
    requires NoMoreRefs(before, after) && NonNegative(before) && !Room(before)
    ensures HasBuf(before, t) <==> HasBuf(after, t)
  {
    forall j | 0 <= j < |before| ensures before[j].refcnt > 0 { }
    if HasBuf(before, t) {
      var j :| 0 <= j < |before| && HasKey(before[j], ROOTDEV, t);
      assert HasKey(after[j], ROOTDEV, t);
    }
    if HasBuf(after, t) {
      var j :| 0 <= j < |after| && HasKey(after[j], ROOTDEV, t);
      assert HasKey(before[j], ROOTDEV, t);
    }
  }

  /** What bget() could do before it can do still, and nothing more. */
  lemma SameCanGet(before: seq<Buf>, after: seq<Buf>, t: int)
    requires SameRefs(before, after) && NonNegative(before)
    ensures CanGet(after, t) <==> CanGet(before, t)
  {
    hide HasBuf;
    if Room(before) {
      var j :| 0 <= j < |before| && before[j].refcnt == 0;
      assert after[j].refcnt == 0;
    } else {
      BufKept(before, after, t);
      forall j | 0 <= j < |after| ensures after[j].refcnt != 0 { }
    }
  }

  /** If every reference is a pin, bget() finds a buffer to recycle if and only if the log is not full. */
  lemma PinsLeaveRoom(c: BCache, lh: seq<int>)
    requires c.Valid() && c.pins == multiset(lh) && NoDup(lh)
    requires forall i | 0 <= i < NBUF :: c.bufs[i].refcnt == if c.bufs[i].dev == ROOTDEV then c.pins[c.bufs[i].blockno] else 0
    ensures Room(c.bufs) <==> |lh| < LOGSIZE
  {
    hide Ring, Counted, Unique, Coherent;
    if Room(c.bufs) {
      var j :| 0 <= j < NBUF && c.bufs[j].refcnt == 0;
      assert AllCached(c.bufs, lh) by { PinsCached(c, lh); }
      SpareBuffer(c.bufs, lh, j);
    } else {
      forall i | 0 <= i < NBUF ensures c.bufs[i].dev == ROOTDEV && c.bufs[i].blockno in lh { }
      TooMany(c.bufs, lh);
    }
  }

  ghost predicate AllCached(bufs: seq<Buf>, lh: seq<int>) { forall b | b in lh :: Cached(bufs, b) }

  lemma PinsCached(c: BCache, lh: seq<int>)
    requires c.Valid() && c.pins == multiset(lh)
    ensures AllCached(c.bufs, lh)
  {
    forall b | b in lh ensures b in c.pins { }
  }

  /** Distinct blocks are cached in as many buffers, and buffer j is not one of them. */
  lemma SpareBuffer(bufs: seq<Buf>, lh: seq<int>, j: int)
    requires NoDup(lh) && AllCached(bufs, lh) && 0 <= j < |bufs| && !(bufs[j].dev == ROOTDEV && bufs[j].blockno in lh)
    ensures |lh| < |bufs|
  {
    var rest := bufs[..j] + bufs[j + 1..];
    forall b | b in lh ensures b in BlocksOf(rest, |rest|) {
      var i :| 0 <= i < |bufs| && Caches(bufs[i], b);
      var k := if i < j then i else i - 1;
      assert rest[k] == bufs[i];
      InBlocks(rest, |rest|, k);
    }
    Counting.SubsetSize((set b | b in lh), BlocksOf(rest, |rest|));
    FewBlocks(rest, |rest|);
    ManyElements(lh);
  }

  lemma {:induction false} InBlocks(bufs: seq<Buf>, n: nat, k: int)
    requires 0 <= k < n <= |bufs|
    ensures bufs[k].blockno in BlocksOf(bufs, n)
  {
    if k < n - 1 { InBlocks(bufs, n - 1, k); }
  }

  lemma {:induction false} FewBlocks(bufs: seq<Buf>, n: nat)
    requires n <= |bufs|
    ensures |BlocksOf(bufs, n)| <= n
  {
    if n > 0 { FewBlocks(bufs, n - 1); }
  }

  lemma {:induction false} ManyElements(lh: seq<int>)
    requires NoDup(lh)
    ensures |set b | b in lh| == |lh|
  {
    if lh != [] {
      var rest := lh[..|lh| - 1];
      ManyElements(rest);
      assert (set b | b in lh) == (set b | b in rest) + {lh[|lh| - 1]};
    }
  }

  /** Buffers for distinct blocks of a list are no more than the list is long. */
  lemma TooMany(bufs: seq<Buf>, lh: seq<int>)
    requires Unique(bufs) && forall i | 0 <= i < |bufs| :: bufs[i].dev == ROOTDEV && bufs[i].blockno in lh
    ensures |bufs| <= |lh|
  {
    BlocksCounted(bufs, |bufs|);
    forall b | b in BlocksOf(bufs, |bufs|) ensures b in lh {
      var i :| 0 <= i < |bufs| && bufs[i].blockno == b;
    }
    Counting.SubsetSize(BlocksOf(bufs, |bufs|), set b | b in lh);
    Elements(lh);
  }

  ghost function BlocksOf(bufs: seq<Buf>, k: nat): set<int>
    requires k <= |bufs|
  {
    if k == 0 then {} else BlocksOf(bufs, k - 1) + {bufs[k - 1].blockno}
  }

  lemma {:induction false} BlocksCounted(bufs: seq<Buf>, k: nat)
    requires k <= |bufs| && Unique(bufs) && forall i | 0 <= i < k :: bufs[i].dev == ROOTDEV
    ensures |BlocksOf(bufs, k)| == k && forall b | b in BlocksOf(bufs, k) :: exists i :: 0 <= i < k && bufs[i].blockno == b
  {
    if k > 0 {
      BlocksCounted(bufs, k - 1);
      forall b | b in BlocksOf(bufs, k) ensures exists i :: 0 <= i < k && bufs[i].blockno == b {
        if b == bufs[k - 1].blockno { assert bufs[k - 1].blockno == b; }
      }
      assert bufs[k - 1].blockno !in BlocksOf(bufs, k - 1);
    }
  }

  lemma {:induction false} Elements(lh: seq<int>)
    ensures |set b | b in lh| <= |lh|
  {
    if lh != [] {
      var rest := lh[..|lh| - 1];
      Elements(rest);
      assert (set b | b in lh) == (set b | b in rest) + {lh[|lh| - 1]};
    }
  }

  /** Two buffers were referenced and released again, others not touched. */
  lemma Balanced(before: seq<Buf>, after: seq<Buf>, i: int, j: int)
    requires |before| == |after| && 0 <= i < |before| && 0 <= j < |before|
    requires after[i].refcnt <= before[i].refcnt && after[j].refcnt <= before[j].refcnt
    requires before[i].refcnt > 0 ==> HasKey(after[i], before[i].dev, before[i].blockno)
    requires before[j].refcnt > 0 ==> HasKey(after[j], before[j].dev, before[j].blockno)
    requires after == before[i := after[i]][j := after[j]]
    ensures NoMoreRefs(before, after)
  {
  }

  ghost predicate NonNegative(bufs: seq<Buf>) {
    forall j | 0 <= j < |bufs| :: bufs[j].refcnt >= 0
  }

  lemma CacheFacts(c: BCache)
    requires c.Valid()
    ensures c.view.Keys == c.disk.Keys && |c.bufs| == NBUF && NonNegative(c.bufs)
  {
  }

  lemma RoomKept(before: seq<Buf>, after: seq<Buf>)
    requires NoMoreRefs(before, after) && Room(before) && NonNegative(after)
    ensures Room(after)
  {
    var j :| 0 <= j < |before| && before[j].refcnt == 0;
    assert after[j].refcnt == 0;
  }

  ghost predicate AllFree(bufs: seq<Buf>) {
    forall j | 0 <= j < |bufs| :: bufs[j].refcnt == 0
  }

  lemma StillRoom(before: seq<Buf>, after: seq<Buf>, i: int)
    requires |before| == |after| == NBUF && 0 <= i < NBUF && after == before[i := after[i]]
    ensures AllFree(before) ==> Room(after)
  {
    assert AllFree(before) ==> after[(i + 1) % NBUF].refcnt == 0;
  }

  /** A block that nobody pins or holds is on the disk as it must be seen. */
  lemma CleanBlock(c: BCache, b: int)
    requires c.Valid() && b in c.disk && b !in c.pins && b !in c.held
    ensures c.view[b] == c.disk[b]
  {
  }

  lemma PinnedIsCached(c: BCache, b: int)
    requires c.Valid() && b in c.pins
    ensures exists j :: 0 <= j < NBUF && HasKey(c.bufs[j], ROOTDEV, b)
  {
    assert Cached(c.bufs, b);
    var j :| 0 <= j < |c.bufs| && Caches(c.bufs[j], b);
    assert HasKey(c.bufs[j], ROOTDEV, b);
  }

  /** write_head()'s loop over the header block's words. */
  method FillHeader(b: Block, block: seq<int>, n: int) returns (r: Block)
    requires 0 <= n <= LOGSIZE < |b.words| && n <= |block|
    ensures r == SetHeader(b, block[..n])
  {
    var w := b.words[0 := n];
    var i := 0;
    while i < n
      invariant 0 <= i <= n && w == [n] + block[..i] + b.words[1 + i..]
    {
      w := w[1 + i := block[i]];
      i := i + 1;
    }
    r := Block(w);
  }

  /** No process holds a block that commit() needs, and readers of home blocks see what they saw before it. */
  ghost predicate Undisturbed(r: Region, held: set<int>, disk: Disk, view: Disk, lh: seq<int>, d0: Disk, v0: Disk) {
    && (forall b | b in held :: !r.Contains(b) && b !in lh)
    && disk.Keys == d0.Keys && view.Keys == v0.Keys && Committable(r, d0, lh, v0)
    && (forall b | b in v0 && !r.Contains(b) :: view[b] == v0[b])
  }

  lemma StillUndisturbed(r: Region, held: set<int>, disk: Disk, view: Disk, lh: seq<int>, d0: Disk, v0: Disk, h: int)
    requires Undisturbed(r, held, disk, view, lh, d0, v0) && h in v0 && h in disk
    ensures Undisturbed(r, held, disk[h := v0[h]], view[h := v0[h]], lh, d0, v0)
  {
    hide Committable;
  }

  class Log {
    const cache: BCache
    const start: int
    const size: int
    var n: int                 // lh.n
    var block: seq<int>        // lh.block
    var outstanding: int
    var committing: bool

    /** The log before initlog() recovers: all fields zero. */
    constructor (c: BCache, start: int, size: int)
      ensures cache == c && this.start == start && this.size == size
      ensures n == 0 && |block| == LOGSIZE && outstanding == 0 && !committing
    {
      cache, this.start, this.size := c, start, size;
      n, block, outstanding, committing := 0, seq(LOGSIZE, i => 0), 0, false;
    }

    ghost function Lh(): seq<int>
      reads this
      requires 0 <= n <= |block|
    {
      block[..n]
    }

    ghost function Where(): Region {
      Region(start, size)
    }

    /** Between commits: the disk's log is empty, and exactly the logged blocks are pinned. */
    ghost predicate Valid()
      reads this, cache
    {
      && cache.Valid()
      && |block| == LOGSIZE && 0 <= n <= LOGSIZE
      && Loggable(Where(), cache.disk, Lh())
      && LogEmpty(Where(), cache.disk)
      && cache.pins == multiset(Lh())
    }

    /** No other process holds a buffer that commit() needs; it would wait for that. */
    ghost predicate Quiet()
      reads this, cache
      requires 0 <= n <= |block|
    {
      forall b | b in cache.held :: !Where().Contains(b) && b !in Lh()
    }

    /** bread() when it cannot fail: the block is cached, or a buffer is free. */
    method Get(b: int) returns (i: int)
      requires cache.Valid() && b in cache.disk && b !in cache.held
      requires CanGet(cache.bufs, b) || b in cache.pins
      modifies cache`bufs, cache`held
      ensures cache.Valid() && 0 <= i < NBUF && cache.bufs[i].refcnt > 0
      ensures cache.bufs == old(cache.bufs)[i := Buf(true, ROOTDEV, b, true, old(cache.bufs)[i].refcnt + 1, cache.view[b])]
      ensures cache.held == old(cache.held) + {b}
      ensures old(cache.bufs)[i].refcnt > 0 ==> HasKey(old(cache.bufs)[i], ROOTDEV, b)
    {
      if b in cache.pins { PinnedIsCached(cache, b); }
      i := cache.Bread(b);
    }

    /** write_head(); true means panic("bget: no buffers"). */
    method WriteHead() returns (panicked: bool)
      requires cache.Valid() && |block| == LOGSIZE && 0 <= n <= LOGSIZE
      requires start in cache.disk && start !in cache.held && start !in cache.pins
      requires |cache.disk[start].words| > LOGSIZE
      modifies cache
      ensures panicked <==> !CanGet(old(cache.bufs), start)
      ensures panicked ==> cache.disk == old(cache.disk) && cache.view == old(cache.view) && cache.writes == old(cache.writes)
      ensures cache.Valid() && cache.pins == old(cache.pins) && cache.held == old(cache.held)
      ensures SameRefs(old(cache.bufs), cache.bufs)
      ensures !panicked ==>
              var h := SetHeader(old(cache.disk)[start], block[..n]);
              && cache.disk == old(cache.disk)[start := h] && cache.view == old(cache.view)[start := h]
              && cache.writes == old(cache.writes) + [Write(start, h)]
    {
      hide Ring, Kept, SetHeader;
      CacheFacts(cache);
      CleanBlock(cache, start);
      var i, h;
      i := cache.Bread(start);
      if i == -1 { return true; }
      h := FillHeader(cache.bufs[i].data, block, n);
      cache.Store(i, h);
      cache.Brelse(i);
      return false;
    }

    /** Two bread()s in a row: log block t, or -1 for a panic, and home block h. */
    method GetBoth(t: int, h: int) returns (i: int, j: int)
      requires cache.Valid() && t != h && t in cache.disk && h in cache.disk && t !in cache.held && h !in cache.held
      requires h in cache.pins || AllFree(cache.bufs)
      modifies cache`bufs, cache`held
      ensures i == -1 <==> !CanGet(old(cache.bufs), t)
      ensures i == -1 ==> cache.bufs == old(cache.bufs) && cache.held == old(cache.held)
      ensures cache.Valid() && -1 <= i < NBUF && 0 <= j < NBUF && i != j
      ensures t in cache.view && h in cache.view
      ensures i >= 0 && old(cache.bufs)[i].refcnt > 0 ==> HasKey(old(cache.bufs)[i], ROOTDEV, t)
      ensures i >= 0 && old(cache.bufs)[j].refcnt > 0 ==> HasKey(old(cache.bufs)[j], ROOTDEV, h)
      ensures i >= 0 ==> cache.bufs == old(cache.bufs)
                [i := Buf(true, ROOTDEV, t, true, old(cache.bufs)[i].refcnt + 1, cache.view[t])]
                [j := Buf(true, ROOTDEV, h, true, old(cache.bufs)[j].refcnt + 1, cache.view[h])]
      ensures i >= 0 ==> cache.held == old(cache.held) + {t, h}
    {
      hide Ring, Kept;
      CacheFacts(cache);
      i := cache.Bread(t);
      if i == -1 { return -1, 0; }
      StillRoom(old(cache.bufs), cache.bufs, i);
      j := Get(h);
    }

    /** Two brelse()s in a row. */
    method ReleaseBoth(i: int, j: int)
      requires cache.Valid() && 0 <= i < NBUF && 0 <= j < NBUF && i != j
      requires forall x | x == i || x == j :: cache.bufs[x].dev == ROOTDEV && cache.bufs[x].locked && cache.bufs[x].blockno in cache.disk
                 && (cache.bufs[x].blockno in cache.pins || cache.disk[cache.bufs[x].blockno] == cache.bufs[x].data)
      modifies cache`bufs, cache`next, cache`prev, cache`ring, cache`held
      ensures cache.Valid()
      ensures cache.held == old(cache.held) - {old(cache.bufs)[i].blockno, old(cache.bufs)[j].blockno}
      ensures cache.bufs == old(cache.bufs)
                [i := old(cache.bufs)[i].(locked := false, refcnt := old(cache.bufs)[i].refcnt - 1)]
                [j := old(cache.bufs)[j].(locked := false, refcnt := old(cache.bufs)[j].refcnt - 1)]
    {
      hide Ring, Kept, MovedToFront;
      cache.Brelse(i);
      cache.Brelse(j);
    }

    /** One round of write_log(): copy a logged block from the cache to the log; true means panic. */
    method WriteLogBlock(k: int) returns (panicked: bool)
      requires cache.Valid() && |block| == LOGSIZE && 0 <= k < n <= LOGSIZE
      requires start + 1 + k in cache.disk && block[k] in cache.disk && start + 1 + k != block[k]
      requires start + 1 + k !in cache.held && block[k] !in cache.held
      requires start + 1 + k !in cache.pins && block[k] in cache.pins
      modifies cache
      ensures panicked <==> !CanGet(old(cache.bufs), start + 1 + k)
      ensures panicked ==> cache.disk == old(cache.disk) && cache.view == old(cache.view) && cache.writes == old(cache.writes)
      ensures cache.Valid() && cache.pins == old(cache.pins) && cache.held == old(cache.held)
      ensures SameRefs(old(cache.bufs), cache.bufs)
      ensures !panicked ==>
              var t, d := start + 1 + k, old(cache.view)[block[k]];
              && cache.disk == old(cache.disk)[t := d] && cache.view == old(cache.view)[t := d]
              && cache.writes == old(cache.writes) + [Write(t, d)]
    {
      hide Ring, Kept;
      var to, from;
      to, from := GetBoth(start + 1 + k, block[k]);
      if to == -1 { return true; }
      cache.Store(to, cache.bufs[from].data);
      ReleaseBoth(from, to);
      return false;
    }

    /** The middle of install_trans(): memmove(), bwrite() and, after a commit, bunpin(). */
    method StoreHome(i: int, d: Block, recovering: bool)
      requires cache.Valid() && 0 <= i < NBUF && cache.bufs[i].dev == ROOTDEV && cache.bufs[i].locked
      requires recovering || cache.bufs[i].blockno in cache.pins
      modifies cache`bufs, cache`view, cache`disk, cache`writes, cache`pins
      ensures cache.Valid()
      ensures var b := old(cache.bufs)[i];
              && cache.bufs == old(cache.bufs)[i := b.(data := d, refcnt := if recovering then b.refcnt else b.refcnt - 1)]
              && cache.view == old(cache.view)[b.blockno := d] && cache.disk == old(cache.disk)[b.blockno := d]
              && cache.writes == old(cache.writes) + [Write(b.blockno, d)]
              && cache.pins == if recovering then old(cache.pins) else old(cache.pins) - multiset{b.blockno}
    {
      hide Ring, Kept;
      cache.Store(i, d);
      if !recovering {
        cache.Bunpin(i);
      }
    }

    /**
     * One round of install_trans(): copy a log block to its home.  After a commit the home block
     * is pinned and is unpinned here; during recovery it may have to be read in.
     */
    method InstallBlock(k: int, recovering: bool)
      requires cache.Valid() && |block| == LOGSIZE && 0 <= k < n <= LOGSIZE && CanGet(cache.bufs, start + 1 + k)
      requires start + 1 + k in cache.disk && block[k] in cache.disk && start + 1 + k != block[k]
      requires start + 1 + k !in cache.held && block[k] !in cache.held
      requires start + 1 + k !in cache.pins && (block[k] in cache.pins <==> !recovering)
      requires recovering ==> AllFree(cache.bufs)
      modifies cache
      ensures cache.Valid() && cache.held == old(cache.held)
      ensures cache.pins == if recovering then old(cache.pins) else old(cache.pins) - multiset{block[k]}
      ensures NoMoreRefs(old(cache.bufs), cache.bufs)
      ensures var h, d := block[k], old(cache.view)[start + 1 + k];
              && cache.disk == old(cache.disk)[h := d] && cache.view == old(cache.view)[h := d]
              && cache.writes == old(cache.writes) + [Write(h, d)]
    {
      hide Ring, Kept, Room, HasBuf, CanGet, NonNegative, AllFree, NoMoreRefs;
      CleanBlock(cache, start + 1 + k);
      var lbuf, dbuf;
      lbuf, dbuf := GetBoth(start + 1 + k, block[k]);
      StoreHome(dbuf, cache.bufs[lbuf].data, recovering);
      ReleaseBoth(lbuf, dbuf);
      Balanced(old(cache.bufs), cache.bufs, lbuf, dbuf);
    }

    /** During commit(): readers of home blocks see what they saw before it, and locks are kept. */
    ghost predicate Committer(d0: Disk, v0: Disk)
      reads this, cache
    {
      && cache.Valid() && |block| == LOGSIZE && 0 < n <= LOGSIZE
      && Undisturbed(Where(), cache.held, cache.disk, cache.view, Lh(), d0, v0)
    }

    lemma CommitStarts()
      requires Valid() && Quiet() && n > 0
      ensures Committer(cache.disk, cache.view) && Progress(Lh(), cache.disk, cache.view, cache.writes, 0)
    {
      CacheFacts(cache);
    }

    /** What commit() needs to know of a logged block and its place in the log. */
    lemma Places(d0: Disk, v0: Disk, k: int)
      requires Committer(d0, v0) && 0 <= k < n
      ensures start + 1 + k in cache.disk && block[k] in cache.disk && start + 1 + k != block[k]
      ensures start + 1 + k !in cache.held && block[k] !in cache.held
      ensures start in cache.disk && start !in cache.held && Where().Contains(start) && Where().Contains(start + 1 + k)
      ensures start + 1 + k !in multiset(Lh()) && start !in multiset(Lh()) && block[k] in multiset(Lh())
      ensures block[k] in v0 && cache.view[block[k]] == v0[block[k]] && !Where().Contains(block[k])
    {
      assert block[k] == Lh()[k];
      assert Where().Contains(start) && Where().Contains(start + 1 + k);
    }

    /** write_log(): the first n writes of the commit; true means a panic before they are done. */
    method WriteLog() returns (panicked: bool)
      requires Valid() && Quiet() && n > 0
      modifies cache
      ensures panicked <==> !AllGet(old(cache.bufs), start + 1, start + n)
      ensures Committer(old(cache.disk), old(cache.view)) && cache.held == old(cache.held)
      ensures SameRefs(old(cache.bufs), cache.bufs) && cache.pins == old(cache.pins)
      ensures !panicked ==> Progress(Lh(), old(cache.disk), old(cache.view), old(cache.writes), n)
      ensures panicked ==> exists i :: 0 <= i < n && Progress(Lh(), old(cache.disk), old(cache.view), old(cache.writes), i)
    {
      hide Ring, Kept, Loggable, LogEmpty, CommitWrites, Committable, CanGet, SameRefs, Room;
      CommitStarts();
      CacheFacts(cache);
      SameRefsRefl(cache.bufs);
      var k := 0;
      while k < n
        invariant 0 <= k <= n && Committer(old(cache.disk), old(cache.view)) && cache.held == old(cache.held)
        invariant SameRefs(old(cache.bufs), cache.bufs) && cache.pins == old(cache.pins)
        invariant Progress(Lh(), old(cache.disk), old(cache.view), old(cache.writes), k)
        invariant AllGet(old(cache.bufs), start + 1, start + k)
      {
        CacheFacts(cache);
        SameCanGet(old(cache.bufs), cache.bufs, start + 1 + k);
        Places(old(cache.disk), old(cache.view), k);
        ghost var before, done, bufs := cache.disk, cache.writes, cache.bufs;
        panicked := WriteLogBlock(k);
        if panicked {
          SameRefsTrans(old(cache.bufs), bufs, cache.bufs);
          assert Progress(Lh(), old(cache.disk), old(cache.view), old(cache.writes), k);
          NotAllGet(old(cache.bufs), start + 1, start + n, start + 1 + k);
          return;
        }
        Progressed(Lh(), old(cache.disk), old(cache.view), old(cache.writes), before, done, k);
        SameRefsTrans(old(cache.bufs), bufs, cache.bufs);
        k := k + 1;
      }
      return false;
    }

    /** install_trans(0): the n home writes of the commit; every logged block is unpinned. */
    method InstallTrans(ghost d0: Disk, ghost v0: Disk, ghost w0: seq<Write>)
      requires Committer(d0, v0) && Ready(cache.bufs, start, n) && cache.pins == multiset(Lh())
      requires Progress(Lh(), d0, v0, w0, n + 1)
      modifies cache
      ensures Committer(d0, v0) && cache.held == old(cache.held)
      ensures Ready(cache.bufs, start, n) && cache.pins == multiset{}
      ensures Progress(Lh(), d0, v0, w0, 2 * n + 1)
    {
      hide Ring, Kept, Committer, Progress;
      CommitterFacts(d0, v0);
      ghost var lh := Lh();
      var k := 0;
      assert lh[0..] == lh;
      while k < n
        invariant 0 <= k <= n && Committer(d0, v0) && cache.held == old(cache.held)
        invariant Ready(cache.bufs, start, n) && cache.pins == multiset(lh[k..])
        invariant Progress(lh, d0, v0, w0, n + 1 + k)
      {
        InstallRound(k, lh, d0, v0, w0);
        k := k + 1;
      }
      assert lh[n..] == [];
    }

    lemma CommitterFacts(d0: Disk, v0: Disk)
      requires Committer(d0, v0)
      ensures |cache.bufs| == NBUF && NonNegative(cache.bufs) && |block| == LOGSIZE && 0 < n <= LOGSIZE
    {
      CacheFacts(cache);
    }

    /** install_trans(0) at round k. */
    method InstallRound(k: int, ghost lh: seq<int>, ghost d0: Disk, ghost v0: Disk, ghost w0: seq<Write>)
      requires Committer(d0, v0) && Ready(cache.bufs, start, n) && lh == Lh() && 0 <= k < n && cache.pins == multiset(lh[k..])
      requires Progress(lh, d0, v0, w0, n + 1 + k)
      modifies cache
      ensures Committer(d0, v0) && cache.held == old(cache.held)
      ensures Ready(cache.bufs, start, n) && cache.pins == multiset(lh[k + 1..])
      ensures Progress(lh, d0, v0, w0, n + 1 + k + 1)
    {
      hide Ring, Kept, Loggable, LogEmpty, CommitWrites, Committable, Committing, NoMoreRefs, Ready, CanGet, NonNegative, Undisturbed;
      CacheFacts(cache);
      Places(d0, v0, k);
      ReadyCanGet(cache.bufs, start, n, start + 1 + k);
      Remaining(lh, k);
      LoggedContents(d0, v0, w0, k);
      StillUndisturbed(Where(), cache.held, cache.disk, cache.view, lh, d0, v0, block[k]);
      InstallBlock(k, false);
      CacheFacts(cache);
      ReadyKept(old(cache.bufs), cache.bufs, start, n);
      Progressed(lh, d0, v0, w0, old(cache.disk), old(cache.writes), n + 1 + k);
    }

    /** The log block to be installed holds what the transaction logged. */
    lemma LoggedContents(d0: Disk, v0: Disk, w0: seq<Write>, k: int)
      requires Committer(d0, v0) && 0 <= k < n && Progress(Lh(), d0, v0, w0, n + 1 + k)
      requires start + 1 + k !in cache.pins && start + 1 + k !in cache.held
      ensures start + 1 + k in cache.view && cache.view[start + 1 + k] == v0[block[k]]
    {
      hide Ring, Kept, Committing, CommitWrites, Loggable, LogEmpty;
      LoggedDuringInstall(Where(), d0, Lh(), v0, k);
      CacheFacts(cache);
      CleanBlock(cache, start + 1 + k);
    }

    lemma Remaining(lh: seq<int>, k: int)
      requires 0 <= k < |lh|
      ensures multiset(lh[k..]) - multiset{lh[k]} == multiset(lh[k + 1..]) && lh[k] in multiset(lh[k..])
      ensures forall b | b in multiset(lh[k..]) :: b in multiset(lh)
    {
      assert lh[k..] == [lh[k]] + lh[k + 1..];
      assert lh == lh[..k] + lh[k..];
    }

    /**
     * commit(): exactly the writes CommitWrites, and the transaction is on the disk.  What
     * readers see of home blocks does not change.  bget() panics for want of a buffer exactly when
     * every buffer is referenced and one of the log's blocks has none, and then before the commit
     * point: what is on the disk stands for what it stood for before.
     */
    method Commit() returns (panicked: bool)
      requires Valid() && (n > 0 ==> Quiet())
      modifies this`n, cache
      ensures panicked <==> old(n) > 0 && !Ready(old(cache.bufs), start, old(n))
      ensures panicked ==> n == old(n) && exists i :: 0 <= i <= n && Progress(Lh(), old(cache.disk), old(cache.view), old(cache.writes), i)
      ensures panicked ==> DiskOk(Where(), cache.disk) && Logical(Where(), cache.disk) == Home(Where(), old(cache.disk))
      ensures !panicked ==> Valid() && n == 0 && cache.held == old(cache.held)
      ensures !panicked ==> cache.writes == old(cache.writes) + CommitWrites(Where(), old(cache.disk)[start], old(Lh()), old(cache.view))
      ensures !panicked ==> cache.disk == Apply(old(cache.disk), CommitWrites(Where(), old(cache.disk)[start], old(Lh()), old(cache.view)))
      ensures !panicked ==> forall b | b in old(cache.view) && !Where().Contains(b) :: b in cache.view && cache.view[b] == old(cache.view)[b]
    {
      hide Ring, Kept, Loggable, LogEmpty, CommitWrites, Committing, Committer, Quiet, Progress, Ready, DiskOk, Logical, Home;
      panicked := false;
      if n > 0 {
        ghost var d0, v0, w0, lh := cache.disk, cache.view, cache.writes, Lh();
        CommitStarts();
        panicked := LogTransaction();
        if panicked {
          NotCommitted(lh, d0, v0, w0);
          return;
        }
        EraseTransaction(d0, v0, w0);
        Committed(lh, d0, v0, w0);
      } else {
        NothingLogged();
      }
    }

    /** Up to the header write nothing is committed. */
    lemma NotCommitted(lh: seq<int>, d0: Disk, v0: Disk, w0: seq<Write>)
      requires exists i :: 0 <= i <= |lh| && Progress(lh, d0, v0, w0, i)
      ensures DiskOk(Where(), cache.disk) && Logical(Where(), cache.disk) == Home(Where(), d0)
    {
      hide Committing, CommitWrites, Logical;
      var i :| 0 <= i <= |lh| && Progress(lh, d0, v0, w0, i);
      CommitPrefixLogical(Where(), d0, lh, v0, i);
    }

    lemma Committed(lh: seq<int>, d0: Disk, v0: Disk, w0: seq<Write>)
      requires Progress(lh, d0, v0, w0, 2 * |lh| + 2)
      ensures Committable(Where(), d0, lh, v0)
      ensures cache.writes == w0 + CommitWrites(Where(), d0[start], lh, v0)
      ensures cache.disk == Apply(d0, CommitWrites(Where(), d0[start], lh, v0))
      ensures LogEmpty(Where(), cache.disk) && Loggable(Where(), cache.disk, [])
    {
      hide Committing, CommitWrites;
      CommitEffect(Where(), d0, lh, v0);
    }

    lemma NothingLogged()
      requires Valid() && n == 0
      ensures CommitWrites(Where(), cache.disk[start], Lh(), cache.view) == []
      ensures Apply(cache.disk, []) == cache.disk
    {
    }

    /** The first half of commit(), ending with the header write that commits; true means a panic before that write. */
    method LogTransaction() returns (panicked: bool)
      requires Valid() && Quiet() && n > 0
      modifies cache
      ensures panicked <==> !Ready(old(cache.bufs), start, n)
      ensures panicked ==> exists i :: 0 <= i <= n && Progress(Lh(), old(cache.disk), old(cache.view), old(cache.writes), i)
      ensures !panicked ==> Committer(old(cache.disk), old(cache.view)) && cache.held == old(cache.held)
      ensures !panicked ==> Ready(cache.bufs, start, n) && cache.pins == multiset(Lh())
      ensures !panicked ==> Progress(Lh(), old(cache.disk), old(cache.view), old(cache.writes), n + 1)
    {
      hide Ring, Kept, Loggable, LogEmpty, CommitWrites, Committable, Committing, SetHeader, CanGet, Ready, SameRefs;
      ghost var d0, v0, w0 := cache.disk, cache.view, cache.writes;
      CacheFacts(cache);
      panicked := WriteLog();
      ReadyIff(old(cache.bufs), start, n);
      if panicked { return; }
      ghost var before, done, bufs := cache.disk, cache.writes, cache.bufs;
      HeaderIsOld(d0, v0, w0);
      SameCanGet(old(cache.bufs), cache.bufs, start);
      panicked := WriteHead();
      if panicked {
        assert Progress(Lh(), d0, v0, w0, n);
        return;
      }
      Progressed(Lh(), d0, v0, w0, before, done, n);
      CacheFacts(cache);
      StillReady(old(cache.bufs), bufs, cache.bufs);
    }

    lemma StillReady(b0: seq<Buf>, b1: seq<Buf>, b2: seq<Buf>)
      requires SameRefs(b0, b1) && SameRefs(b1, b2) && Ready(b0, start, n) && NonNegative(b0) && NonNegative(b2)
      ensures Ready(b2, start, n)
    {
      hide Ready, HasKey;
      ReadyKept(b0, b1, start, n);
      ReadyKept(b1, b2, start, n);
    }

    /** Until the header is written the header block is the old one. */
    lemma HeaderIsOld(d0: Disk, v0: Disk, w0: seq<Write>)
      requires Committer(d0, v0) && Progress(Lh(), d0, v0, w0, n) && cache.pins == multiset(Lh())
      ensures start in cache.disk && start !in cache.held && start !in cache.pins && Where().Contains(start)
      ensures cache.disk[start] == d0[start] && |d0[start].words| > LOGSIZE
    {
      hide Ring, Kept, Committing, CommitWrites;
      Places(d0, v0, 0);
      CommitLogging(Where(), d0, Lh(), v0, n);
    }

    /** The second half of commit(): install, then clear the header. */
    method EraseTransaction(ghost d0: Disk, ghost v0: Disk, ghost w0: seq<Write>)
      requires Committer(d0, v0) && Ready(cache.bufs, start, n) && cache.pins == multiset(Lh())
      requires Progress(Lh(), d0, v0, w0, n + 1)
      modifies this`n, cache
      ensures n == 0 && cache.Valid() && cache.held == old(cache.held) && cache.pins == multiset{}
      ensures Progress(old(Lh()), d0, v0, w0, 2 * old(n) + 2)
      ensures forall b | b in v0 && !Where().Contains(b) :: b in cache.view && cache.view[b] == v0[b]
    {
      hide Ring, Kept, Loggable, LogEmpty, CommitWrites, Committable, Committing, SetHeader;
      ghost var lh := Lh();
      InstallTrans(d0, v0, w0);
      CacheFacts(cache);
      ReadyCanGet(cache.bufs, start, n, start);
      HeaderIsNew(d0, v0, w0);
      ghost var before, done := cache.disk, cache.writes;
      n := 0;
      assert block[..0] == [];
      var panicked;
      panicked := WriteHead();
      assert !panicked;
      Progressed(lh, d0, v0, w0, before, done, 2 * |lh| + 1);
    }

    /** Until the log is cleared the header block is the one that committed. */
    lemma HeaderIsNew(d0: Disk, v0: Disk, w0: seq<Write>)
      requires Committer(d0, v0) && Progress(Lh(), d0, v0, w0, 2 * n + 1)
      ensures start in cache.disk && start !in cache.held && Where().Contains(start)
      ensures |Lh()| <= LOGSIZE < |d0[start].words| && cache.disk[start] == SetHeader(d0[start], Lh())
      ensures |cache.disk[start].words| > LOGSIZE
    {
      hide Ring, Kept, Committing, CommitWrites, Installing;
      Places(d0, v0, 0);
      CommitInstalling(Where(), d0, Lh(), v0, n);
    }

    /** The first i writes of the commit of lh, and no others, have been issued since (d0, w0). */
    ghost predicate Progress(lh: seq<int>, d0: Disk, v0: Disk, w0: seq<Write>, i: int)
      reads cache
    {
      && Committable(Where(), d0, lh, v0) && 0 <= i <= 2 * |lh| + 2
      && cache.disk == Committing(Where(), d0, lh, v0, i)
      && cache.writes == w0 + CommitWrites(Where(), d0[start], lh, v0)[..i]
    }

    lemma Progressed(lh: seq<int>, d0: Disk, v0: Disk, w0: seq<Write>, d: Disk, w: seq<Write>, i: int)
      requires Committable(Where(), d0, lh, v0) && 0 <= i < 2 * |lh| + 2
      requires d == Committing(Where(), d0, lh, v0, i)
      requires w == w0 + CommitWrites(Where(), d0[start], lh, v0)[..i]
      requires var x := CommitWrite(Where(), d0[start], lh, v0, i);
               cache.disk == d[x.blockno := x.data] && cache.writes == w + [x]
      ensures Progress(lh, d0, v0, w0, i + 1)
    {
      hide Committing, CommitWrites;
      CommitNext(Where(), d0, lh, v0, i);
      var ws := CommitWrites(Where(), d0[start], lh, v0);
      assert w0 + ws[..i + 1] == w0 + ws[..i] + [ws[i]];
    }

    // ------------------------------------------------------------ recovery

    /** read_head(). */
    method ReadHead()
      requires cache.Valid() && start in cache.disk && start !in cache.held && start !in cache.pins
      requires Room(cache.bufs) && IsHeader(cache.disk[start]) && |block| == LOGSIZE
      modifies this`n, this`block, cache`bufs, cache`held, cache`next, cache`prev, cache`ring
      ensures cache.Valid() && cache.held == old(cache.held) && NoMoreRefs(old(cache.bufs), cache.bufs)
      ensures |block| == LOGSIZE && 0 <= n <= LOGSIZE && Lh() == Header(cache.disk[start])
    {
      hide Ring, Kept;
      CleanBlock(cache, start);
      var b;
      b := Get(start);
      var words := cache.bufs[b].data.words;
      n := words[0];
      var i := 0;
      while i < n
        modifies this`block
        invariant 0 <= i <= n <= LOGSIZE && |block| == LOGSIZE && n < |words|
        invariant forall k | 0 <= k < i :: block[k] == words[1 + k]
      {
        block := block[i := words[1 + i]];
        i := i + 1;
      }
      assert block[..n] == words[1..1 + n];
      cache.Brelse(b);
    }

    /** With nothing pinned or held, the cache adds nothing to the disk. */
    ghost predicate Clean()
      reads this, cache
    {
      cache.Valid() && cache.pins == multiset{} && cache.held == {} && AllFree(cache.bufs) && |block| == LOGSIZE
    }

    ghost predicate RecoverProgress(d0: Disk, w0: seq<Write>, j: int)
      reads cache
    {
      && DiskOk(Where(), d0) && 0 <= j <= |Header(d0[start])| + 1
      && cache.disk == Recovering(Where(), d0, j)
      && cache.writes == w0 + RecoverWrites(Where(), d0)[..j]
    }

    lemma RecoverProgressed(d0: Disk, w0: seq<Write>, d: Disk, w: seq<Write>, j: int)
      requires DiskOk(Where(), d0) && 0 <= j <= |Header(d0[start])|
      requires d == Recovering(Where(), d0, j) && w == w0 + RecoverWrites(Where(), d0)[..j]
      requires |RecoverWrites(Where(), d0)| == |Header(d0[start])| + 1
      requires var x := RecoverWrites(Where(), d0)[j];
               cache.disk == d[x.blockno := x.data] && cache.writes == w + [x]
      ensures RecoverProgress(d0, w0, j + 1)
    {
      hide Recovering, RecoverWrites, Logical;
      RecoverNext(Where(), d0, j);
      var ws := RecoverWrites(Where(), d0);
      assert w0 + ws[..j + 1] == w0 + ws[..j] + [ws[j]];
    }

    /** What one round of recovery needs to know. */
    lemma RecoverPlaces(d0: Disk, w0: seq<Write>, k: int)
      requires Clean() && RecoverProgress(d0, w0, k) && 0 <= k < n <= LOGSIZE && Lh() == Header(d0[start])
      ensures start + 1 + k in cache.disk && block[k] in cache.disk && start + 1 + k != block[k]
      ensures start + 1 + k in cache.view && |RecoverWrites(Where(), d0)| == n + 1
      ensures RecoverWrites(Where(), d0)[k] == Write(block[k], cache.view[start + 1 + k])
    {
      hide Ring, Kept, Recovering, RecoverWrites, Logical;
      RecoverNext(Where(), d0, k);
      assert block[k] == Lh()[k] && Where().Contains(start + 1 + k);
      CacheFacts(cache);
      CleanBlock(cache, start + 1 + k);
    }

    /** One round of install_trans(1). */
    method RecoverRound(k: int, ghost d0: Disk, ghost w0: seq<Write>)
      requires Clean() && RecoverProgress(d0, w0, k) && 0 <= k < n <= LOGSIZE && Lh() == Header(d0[start])
      modifies cache
      ensures Clean() && RecoverProgress(d0, w0, k + 1)
    {
      hide Ring, Kept, Recovering, RecoverWrites, DiskOk, IsHeader;
      CacheFacts(cache);
      assert cache.bufs[0].refcnt == 0;
      RecoverPlaces(d0, w0, k);
      InstallBlock(k, true);
      CacheFacts(cache);
      RecoverProgressed(d0, w0, old(cache.disk), old(cache.writes), k);
    }

    lemma RecoverClears(d0: Disk, w0: seq<Write>)
      requires Clean() && DiskOk(Where(), d0) && RecoverProgress(d0, w0, |Header(d0[start])|)
      ensures start in cache.disk && |cache.disk[start].words| > LOGSIZE
      ensures |RecoverWrites(Where(), d0)| == |Header(d0[start])| + 1
      ensures RecoverWrites(Where(), d0)[|Header(d0[start])|] == Write(start, SetHeader(cache.disk[start], []))
    {
      hide Ring, Kept, Recovering, RecoverWrites, Logical;
      assert Where().Contains(start);
      RecoverNext(Where(), d0, |Header(d0[start])|);
    }

    /** recover_from_log(): exactly the writes RecoverWrites, and the log is ready for use. */
    method RecoverFromLog()
      requires Clean() && DiskOk(Where(), cache.disk)
      modifies this`n, this`block, cache
      ensures Valid() && n == 0
      ensures cache.writes == old(cache.writes) + RecoverWrites(Where(), old(cache.disk))
      ensures cache.disk == Recovered(Where(), old(cache.disk))
    {
      hide Ring, Kept, Recovering, RecoverWrites, Loggable, Logical;
      ghost var d0, w0 := cache.disk, cache.writes;
      CacheFacts(cache);
      assert cache.bufs[0].refcnt == 0 && Where().Contains(start);
      RecoverStarts();
      ReadHead();
      CacheFacts(cache);
      var k := 0;
      while k < n
        invariant 0 <= k <= n <= LOGSIZE && Clean() && Lh() == Header(d0[start]) && RecoverProgress(d0, w0, k)
      {
        RecoverRound(k, d0, w0);
        k := k + 1;
      }
      RecoverClears(d0, w0);
      CacheFacts(cache);
      assert cache.bufs[0].refcnt == 0;
      ghost var before, done, m := cache.disk, cache.writes, n;
      n := 0;
      assert block[..0] == [];
      var panicked;
      panicked := WriteHead();
      assert !panicked;
      RecoverProgressed(d0, w0, before, done, m);
      RecoverEffect(Where(), d0);
    }

    lemma RecoverStarts()
      requires Clean() && DiskOk(Where(), cache.disk)
      ensures RecoverProgress(cache.disk, cache.writes, 0) && start in cache.disk
    {
      assert Where().Contains(start);
    }

    // ------------------------------------------------------------ operations

    /** The fields under log.lock, as module LogAdmission sees them. */
    ghost function State(): LogAdmission.Log
      reads this
      requires 0 <= n <= |block|
    {
      LogAdmission.Log(Lh(), outstanding, committing)
    }

    /** begin_op(), one attempt: false means that the caller sleeps and tries again. */
    method BeginOp() returns (admitted: bool)
      requires Valid()
      modifies this`outstanding
      ensures Valid()
      ensures admitted <==> LogAdmission.Admits(old(State()))
      ensures State() == if admitted then LogAdmission.Begin(old(State())) else old(State())
    {
      if committing || n + (outstanding + 1) * MAXOPBLOCKS > LOGSIZE {
        return false;
      }
      outstanding := outstanding + 1;
      return true;
    }

    /** log_write() on a held buffer: record and pin the block; true means panic(). */
    method LogWrite(i: int) returns (panicked: bool)
      requires Valid() && 0 <= i < NBUF && cache.bufs[i].dev == ROOTDEV && cache.bufs[i].locked
      requires !Where().Contains(cache.bufs[i].blockno)
      modifies this`n, this`block, cache`bufs, cache`pins
      ensures panicked <==> LogAdmission.Record(size, old(State()), old(cache.bufs)[i].blockno).Panic?
      ensures panicked ==> n == old(n) && block == old(block) && cache.bufs == old(cache.bufs) && cache.pins == old(cache.pins)
      ensures !panicked ==> Valid() && State() == LogAdmission.Record(size, old(State()), old(cache.bufs)[i].blockno).log
      ensures !panicked ==> old(cache.bufs)[i].blockno in cache.pins
      ensures !panicked ==> var b := old(cache.bufs)[i];
                            cache.bufs == old(cache.bufs)[i := b.(refcnt := b.refcnt + if b.blockno in old(Lh()) then 0 else 1)]
    {
      hide Ring, Kept, Loggable, LogEmpty;
      var b := cache.bufs[i].blockno;
      if n >= LOGSIZE || n >= size - 1 { return true; }
      if outstanding < 1 { return true; }
      var j;
      j := FindLogged(b);
      if j == n {
        Append(i);
      } else {
        block := block[j := b];
        assert block[..n] == old(block)[..n] && Lh()[j] == b;
      }
      return false;
    }

    /** The last part of log_write() for a block that is not in the log yet. */
    method Append(i: int)
      requires Valid() && 0 <= i < NBUF && cache.bufs[i].dev == ROOTDEV && cache.bufs[i].locked
      requires n < LOGSIZE && n < size - 1 && cache.bufs[i].blockno !in Lh() && !Where().Contains(cache.bufs[i].blockno)
      modifies this`n, this`block, cache`bufs, cache`pins
      ensures Valid() && Lh() == old(Lh()) + [old(cache.bufs)[i].blockno]
      ensures cache.bufs == old(cache.bufs)[i := old(cache.bufs)[i].(refcnt := old(cache.bufs)[i].refcnt + 1)]
    {
      hide Ring, Kept, Loggable, LogEmpty;
      CanLog(i);
      OneMore(Where(), cache.disk, Lh(), cache.bufs[i].blockno);
      block := block[n := cache.bufs[i].blockno];
      cache.Bpin(i);
      n := n + 1;
      assert block[..n] == old(block)[..old(n)] + [old(cache.bufs)[i].blockno];
    }

    /** log_write()'s absorption scan: the slot that holds b already, or the next free one. */
    method FindLogged(b: int) returns (j: int)
      requires 0 <= n <= |block|
      ensures 0 <= j <= n && (j < n ==> block[j] == b)
      ensures j == n <==> b !in Lh()
    {
      j := 0;
      while j < n
        invariant 0 <= j <= n
        invariant b !in block[..j]
      {
        if block[j] == b {
          assert Lh()[j] == b;
          break;
        }
        j := j + 1;
      }
    }

    lemma CanLog(i: int)
      requires Valid() && 0 <= i < NBUF && cache.bufs[i].dev == ROOTDEV && cache.bufs[i].locked
      ensures cache.bufs[i].valid && cache.bufs[i].blockno in cache.disk
    {
    }

    /** end_op(): the last operation out commits; true means panic("log.committing"), or that commit() panicked. */
    method EndOp() returns (panicked: bool)
      requires Valid() && (outstanding == 1 && !committing && n > 0 ==> Quiet())
      modifies this`outstanding, this`committing, this`n, cache
      ensures panicked <==> LogAdmission.End(old(State())).Panic? || (old(outstanding) == 1 && old(n) > 0 && !Ready(old(cache.bufs), start, old(n)))
      ensures !panicked ==> Valid() && outstanding == old(outstanding) - 1 && !committing
      ensures !panicked && outstanding != 0 ==> State() == LogAdmission.End(old(State())).log && cache.writes == old(cache.writes)
      ensures !panicked && outstanding == 0 ==>
                && n == 0
                && cache.writes == old(cache.writes) + CommitWrites(Where(), old(cache.disk)[start], old(Lh()), old(cache.view))
    {
      hide Ring, Kept, CommitWrites, Header;
      panicked := LeaveOp();
      if panicked { return; }
      if committing {
        panicked := Commit();
        if panicked { return; }
        committing := false;
      }
      return false;
    }

    /** end_op() up to its first release(): from here to the end of the commit nobody is let in. */
    method LeaveOp() returns (panicked: bool)
      requires Valid()
      modifies this`outstanding, this`committing
      ensures Valid()
      ensures panicked <==> LogAdmission.End(old(State())).Panic?
      ensures !panicked ==> State() == LogAdmission.End(old(State())).log
    {
      outstanding := outstanding - 1;
      if committing { return true; }
      if outstanding == 0 { committing := true; }
      return false;
    }
  }

  // ---------------------------------------------------------------- a commit without buffers

  ghost function FreeBufs(bufs: seq<Buf>): set<int> { set j | 0 <= j < |bufs| && bufs[j].refcnt == 0 }

  /** k buffers are in use, all for blocks from 100 to 99 + k. */
  ghost predicate InUse(bufs: seq<Buf>, k: int) {
    && |bufs| == NBUF && |FreeBufs(bufs)| == NBUF - k && NonNegative(bufs)
    && forall j | 0 <= j < NBUF && bufs[j].refcnt > 0 :: 100 <= bufs[j].blockno < 100 + k
  }

  lemma OneMoreInUse(before: seq<Buf>, after: seq<Buf>, k: int, i: int)
    requires InUse(before, k) && 0 <= k && 0 <= i < NBUF == |after| && before[i].refcnt == 0 && after == before[i := after[i]]
    requires after[i].refcnt > 0 && after[i].blockno == 100 + k
    ensures InUse(after, k + 1)
  {
    assert FreeBufs(after) == FreeBufs(before) - {i};
    assert i in FreeBufs(before);
  }

  lemma RoomLeft(bufs: seq<Buf>, k: int)
    requires InUse(bufs, k)
    ensures k < NBUF ==> Room(bufs)
    ensures k >= NBUF ==> !Ready(bufs, 2, 1)
  {
    if k < NBUF {
      var j :| j in FreeBufs(bufs);
    } else {
      forall j | 0 <= j < NBUF ensures bufs[j].refcnt > 0 { assert j !in FreeBufs(bufs); }
      assert !HasBuf(bufs, 2);
    }
  }

  lemma NoneInUse(bufs: seq<Buf>)
    requires |bufs| == NBUF && AllFree(bufs)
    ensures InUse(bufs, 0)
  {
    assert FreeBufs(bufs) == Counting.Range(0, NBUF);
  }

  /** A log on a zeroed disk, with one operation admitted. */
  method NewLog() returns (log: Log)
    ensures fresh(log) && fresh(log.cache) && log.Valid() && log.start == 2 && log.size == LOGSIZE && log.n == 0 && log.outstanding == 1 && !log.committing
    ensures AllFree(log.cache.bufs) && log.cache.held == {} && forall b | 0 <= b < 200 :: b in log.cache.disk
  {
    hide Ring, Kept;
    var cache := new BCache(Zeroed(200));
    log := new Log(cache, 2, LOGSIZE);
    assert cache.disk[2].words[0] == 0;
    var admitted;
    admitted := log.BeginOp();
  }

  /** Block 100 is logged, and only the log's pin keeps its buffer. */
  method OneLogged() returns (log: Log)
    ensures fresh(log) && fresh(log.cache) && log.Valid() && log.start == 2 && log.size == LOGSIZE && log.n == 1 && log.Lh() == [100] && log.outstanding == 1 && !log.committing
    ensures InUse(log.cache.bufs, 1) && log.cache.held == {} && forall b | 0 <= b < 200 :: b in log.cache.disk
  {
    hide Ring, Kept, InUse, LogEmpty, Loggable, AllFree, NonNegative;
    log := NewLog();
    CacheFacts(log.cache);
    NoneInUse(log.cache.bufs);
    LogHundred(log);
  }

  method LogHundred(log: Log)
    requires log.Valid() && log.start == 2 && log.size == LOGSIZE && log.n == 0 && log.outstanding == 1 && !log.committing
    requires InUse(log.cache.bufs, 0) && log.cache.held == {} && 100 in log.cache.disk
    modifies log`n, log`block, log.cache
    ensures log.Valid() && log.n == 1 && log.Lh() == [100] && log.cache.held == {} && log.cache.disk == old(log.cache.disk)
    ensures InUse(log.cache.bufs, 1)
  {
    hide Ring, Kept, InUse, LogEmpty, Loggable, Room, CanGet, AllFree, NonNegative;
    ghost var bufs := log.cache.bufs;
    CacheFacts(log.cache);
    RoomLeft(bufs, 0);
    CanGetOne(bufs, 100);
    var i;
    i := log.Get(100);
    NewBuf(bufs, 0, i);
    LogAndRelease(log, i);
    OneMoreInUse(bufs, log.cache.bufs, 0, i);
  }

  method LogAndRelease(log: Log, i: int)
    requires log.Valid() && log.start == 2 && log.size == LOGSIZE && log.n == 0 && log.outstanding == 1 && !log.committing
    requires 0 <= i < NBUF && |log.cache.bufs| == NBUF && log.cache.bufs[i].refcnt == 1
    requires HasKey(log.cache.bufs[i], ROOTDEV, 100) && log.cache.bufs[i].locked && log.cache.held == {100}
    modifies log`n, log`block, log.cache
    ensures log.Valid() && log.n == 1 && log.Lh() == [100] && log.cache.held == {} && log.cache.disk == old(log.cache.disk)
    ensures |log.cache.bufs| == NBUF && log.cache.bufs == old(log.cache.bufs)[i := log.cache.bufs[i]]
    ensures log.cache.bufs[i].refcnt == 1 && log.cache.bufs[i].blockno == 100
  {
    hide Ring, Kept, LogEmpty, Loggable, LogAdmission.Record;
    var panicked;
    Recorded(log.State());
    panicked := log.LogWrite(i);
    log.cache.Brelse(i);
  }

  lemma Recorded(s: LogAdmission.Log)
    requires s.lh == [] && s.outstanding == 1
    ensures LogAdmission.Record(LOGSIZE, s, 100).Fine? && LogAdmission.Record(LOGSIZE, s, 100).log.lh == [100]
  {
  }

  /** Block 100 is logged, and processes hold buffers for blocks 101 to 99 + k. */
  ghost predicate Crowded(log: Log, k: int)
    reads log, log.cache
  {
    && log.Valid() && log.start == 2 && log.size == LOGSIZE && log.Lh() == [100] && log.outstanding == 1 && !log.committing
    && InUse(log.cache.bufs, k) && (forall b | 0 <= b < 200 :: b in log.cache.disk) && forall b | b in log.cache.held :: 100 < b < 100 + k
  }

  method HoldOne(log: Log, k: int)
    requires 1 <= k < NBUF && Crowded(log, k)
    modifies log.cache
    ensures Crowded(log, k + 1)
  {
    hide Ring, Kept, InUse, HasKey, LogEmpty, Loggable, CanGet, Room;
    var i;
    RoomLeft(log.cache.bufs, k);
    ghost var bufs := log.cache.bufs;
    CanGetOne(bufs, 100 + k);
    i := log.Get(100 + k);
    NewBuf(bufs, k, i);
    OneMoreInUse(bufs, log.cache.bufs, k, i);
  }

  /** One block is logged and pinned, and other processes hold the other buffers: end_op() panics in commit(). */
  method CommitCanPanic() returns (panicked: bool)
    ensures panicked
  {
    hide Crowded, Ready;
    var log := OneCrowded();
    var k := 1;
    while k < NBUF
      invariant 1 <= k <= NBUF && fresh(log.cache) && Crowded(log, k)
    {
      HoldOne(log, k);
      k := k + 1;
    }
    NoRoom(log);
    panicked := log.EndOp();
  }

  method OneCrowded() returns (log: Log)
    ensures fresh(log) && fresh(log.cache) && Crowded(log, 1)
  {
    hide InUse, LogEmpty, Loggable, Ring, Kept;
    log := OneLogged();
  }

  lemma NoRoom(log: Log)
    requires Crowded(log, NBUF)
    ensures log.Valid() && log.outstanding == 1 && !log.committing && log.n == 1 && log.Quiet() && !Ready(log.cache.bufs, log.start, 1)
  {
    hide InUse, LogEmpty, Loggable, Ring, Kept, Ready;
    RoomLeft(log.cache.bufs, NBUF);
    assert |log.Lh()| == 1;
  }

  lemma CanGetOne(bufs: seq<Buf>, b: int)
    requires Room(bufs)
    ensures CanGet(bufs, b)
  {
  }

  lemma NewBuf(bufs: seq<Buf>, k: int, i: int)
    requires InUse(bufs, k) && 0 <= i < NBUF && (bufs[i].refcnt > 0 ==> HasKey(bufs[i], ROOTDEV, 100 + k))
    ensures bufs[i].refcnt == 0
  {
  }
}
