/** Block allocation and file contents: fs.c over the contents of disk blocks. */
module FileSystem {
  import opened BlockOwnership
  import opened Counting
  import opened Machine
  import opened Params

  /** Blocks as bread() shows them, in-memory inodes, the use of every block, and the blocks logged. */
  datatype State = State(b: Blocks, n: Inodes, u: Uses, l: set<int>)

  /** How much of a write counts when the source of the copy yields `avail` bytes: whole chunks only. */
  function CopyTot(off: int, avail: nat): int {
    if (off + avail) / BSIZE == off / BSIZE then 0 else avail - (off + avail) % BSIZE
  }

  /** How much of a write of n bytes counts, unless the disk fills up. */
  function Goal(off: int, n: nat, avail: nat): int { if avail < n then CopyTot(off, avail) else n }

  /** The block for byte o of a file is not mapped. */
  ghost predicate Hole(blocks: Blocks, ip: Inode, o: int) {
    |ip.addrs| == 13 && 0 <= o < MAXFILE * BSIZE && AddrAt(blocks, ip, SlotOf(o / BSIZE)) == 0
  }

  /** How many rounds writei() goes through, unless the disk fills up. */
  function Rounds(off: int, n: nat, avail: nat): int { Span(off, if avail < n then avail + 1 else n) }

  /** Fewer blocks are unused than writei() will have to add. */
  ghost predicate Lacking(s: State, i: int, off: int, n: nat, avail: nat) {
    && i in s.n && |s.n[i].addrs| == 13 && 0 <= off && off + n <= MAXFILE * BSIZE && off / BSIZE + Rounds(off, n, avail) <= MAXFILE
    && Free(s.u) < Need(s.b, s.n[i], off / BSIZE, Rounds(off, n, avail))
  }

  /** k rounds need more blocks than are unused, k - 1 rounds do not. */
  ghost predicate LastRound(s: State, i: int, first: int, k: nat) {
    && i in s.n && |s.n[i].addrs| == 13 && 0 <= first && 0 < k && first + k <= MAXFILE
    && Need(s.b, s.n[i], first, k - 1) <= Free(s.u) < Need(s.b, s.n[i], first, k)
  }

  /** ... and the write stops where round k starts. */
  ghost predicate RunsOut(s: State, i: int, off: int, k: nat, ret: int) {
    0 <= off && LastRound(s, i, off / BSIZE, k) && ret == if k == 1 then 0 else (off / BSIZE + k - 1) * BSIZE - off
  }

  /** k rounds since s0 took exactly the blocks that file i lacked for them. */
  ghost predicate Paid(sb: Super, s0: State, s: State, i: int, first: int, k: nat) {
    && Inv(sb, s0.b, s0.n, s0.u) && i in s0.n && |s0.n[i].addrs| == 13 && 0 <= first && first + k <= MAXFILE
    && (k == 0 ==> s.b == s0.b && s.n == s0.n) && Free(s.u) + Need(s0.b, s0.n[i], first, k) == Free(s0.u)
  }

  /** Whether the disk filled up, told by the state before. */
  ghost predicate Judged(s0: State, s: State, i: int, off: int, n: nat, avail: nat, ret: int, k: nat) {
    && i in s.n && k <= Rounds(off, n, avail)
    && if ret < n && Hole(s.b, s.n[i], off + ret) then RunsOut(s0, i, off, k, ret) && Lacking(s0, i, off, n, avail)
       else k == Rounds(off, n, avail) && !Lacking(s0, i, off, n, avail)
  }

  /** Blocks with bytes that count are in the log. */
  ghost predicate CountedLogged(s: State, i: int, off: int, ret: int) {
    && i in s.n && |s.n[i].addrs| == 13 && 0 <= off && off + ret <= MAXFILE * BSIZE
    && forall o | off <= o < off + ret :: AddrAt(s.b, s.n[i], SlotOf(o / BSIZE)) in s.l
  }

  /** writei() has written `tot` bytes since s0, in k rounds, and logged what it changed: `t` and bitmap blocks. */
  ghost predicate Writing(sb: Super, s0: State, s: State, i: int, off: int, data: seq<int>, tot: int, t: set<int>, k: nat) {
    && Inv(sb, s.b, s.n, s.u) && Wrote(s0.b, s0.n, s0.u, s.b, s.n, s.u, i, off, data, tot, k) && MappedTo(s.b, s.n[i], off + tot)
    && LogCovers(sb, s0.b, s0.l, s.b, s.l, t)
    && off / BSIZE + k <= MAXFILE && (forall b | b in t && b != 0 :: b in Touched(s.b, s.n[i], off / BSIZE, k))
    && NewLogged(s0.u, s.u, s.l) && CountedLogged(s, i, off, tot)
  }

  /** File i differs from what it was at s0 by a write of `ret` bytes, with `wr` bytes of data in its blocks. */
  ghost predicate WroteTo(s0: State, s: State, i: int, off: int, data: seq<int>, ret: int, wr: int, k: int) {
    && i in s0.n && i in s.n && |s0.n[i].addrs| == 13 && |s.n[i].addrs| == 13 && 0 <= ret <= wr <= |data| && 0 <= off
    && SameFiles(s0.b, s0.n, s.b, s.n, i) && s.n == s0.n[i := s.n[i]] && Taken(s0.u, s.u, i, off / BSIZE, off / BSIZE + k)
    && s.n[i].size == (if off + ret > s0.n[i].size then off + ret else s0.n[i].size)
    && forall o | 0 <= o < MAXFILE * BSIZE ::
         ByteAt(s.b, s.n[i], o) == if off <= o < off + wr then data[o - off] else ByteAt(s0.b, s0.n[i], o)
  }

  /** Why writei() stopped after `ret` bytes: all were written, a copy failed, or the disk is full. */
  ghost predicate Stopped(s: State, i: int, off: int, n: nat, avail: nat, ret: int, wr: int) {
    && i in s.n && 0 <= ret <= Goal(off, n, avail) && (ret == 0 || ret == n || (off + ret) % BSIZE == 0)
    && (ret == n ==> wr == ret)
    && (ret < n ==> if Hole(s.b, s.n[i], off + ret) then Full(s.u) && wr == ret
                    else ret == Goal(off, n, avail) && wr == avail < n)
  }

  /** The blocks without the bytes that no log_write() covers: they differ in the block of the failed copy only. */
  ghost predicate KeptBut(sb: Super, s: State, i: int, off: int, ret: int, wr: int, kept: Blocks) {
    if wr == ret then kept == s.b else
    && i in s.n && |s.n[i].addrs| == 13 && 0 <= off + ret < MAXFILE * BSIZE
    && var b := AddrAt(s.b, s.n[i], SlotOf((off + ret) / BSIZE));
       sb.nmeta <= b && b in s.b && b in kept && s.b == kept[b := s.b[b]]
  }

  /** If the block of a failed copy is in the log all the same, it was new. */
  ghost predicate NewIfLogged(s0: State, s: State, i: int, off: int, ret: int, wr: int) {
    wr > ret && i in s.n && |s.n[i].addrs| == 13 && 0 <= off + ret < MAXFILE * BSIZE ==>
      var b := AddrAt(s.b, s.n[i], SlotOf((off + ret) / BSIZE));
      b in s.l && b !in s0.l ==> b in s0.u && s0.u[b] == Unused
  }

  /** writei()'s loop is done: `tot` bytes count, `wr` bytes are in the blocks. */
  ghost predicate Ended(sb: Super, s0: State, s: State, i: int, off: int, data: seq<int>, avail: nat, tot: int, wr: int, kept: Blocks, t: set<int>, k: nat) {
    && Inv(sb, s.b, s.n, s.u) && Wrote(s0.b, s0.n, s0.u, s.b, s.n, s.u, i, off, data, wr, k) && 0 <= tot <= wr
    && Writing(sb, s0, s.(b := kept), i, off, data, tot, t, k) && Stopped(s, i, off, |data|, avail, tot, wr)
    && KeptBut(sb, s, i, off, tot, wr, kept) && NewIfLogged(s0, s, i, off, tot, wr) && k <= Span(off, |data|)
    && Judged(s0, s, i, off, |data|, avail, tot, k)
    && forall j | 0 <= j < SLOTS :: AddrAt(s.b, s.n[i], j) == AddrAt(kept, s.n[i], j)
  }

  lemma EndedAll(sb: Super, s0: State, s: State, i: int, off: int, data: seq<int>, avail: nat, tot: int, t: set<int>, k: nat)
    requires Writing(sb, s0, s, i, off, data, tot, t, k) && k <= Span(off, |data|) && Stopped(s, i, off, |data|, avail, tot, tot)
    requires Judged(s0, s, i, off, |data|, avail, tot, k)
    ensures Ended(sb, s0, s, i, off, data, avail, tot, tot, s.b, t, k)
  {
    hide Inv, AddrAt, ByteAt, LogCovers, MappedTo, Touched, Stopped, Judged, NewLogged, CountedLogged;
  }

  /** Extending the size and iupdate() change neither why the write stopped nor where the lost bytes are. */
  lemma StoppedStays(sb: Super, s: State, kept: Blocks, s': State, kept': Blocks, i: int, ib: int, off: int, n: nat, avail: nat, ret: int, wr: int)
    requires Stopped(s, i, off, n, avail, ret, wr) && KeptBut(sb, s, i, off, ret, wr, kept) && s'.u == s.u
    requires i in s'.n && |s.n[i].addrs| == 13 && |s'.n[i].addrs| == 13 && ib < sb.nmeta && ib in s'.b
    requires s'.b == s.b[ib := s'.b[ib]] && kept' == kept[ib := s'.b[ib]]
    requires forall j | 0 <= j < SLOTS :: AddrAt(s'.b, s'.n[i], j) == AddrAt(s.b, s.n[i], j)
    ensures Stopped(s', i, off, n, avail, ret, wr) && KeptBut(sb, s', i, off, ret, wr, kept')
    ensures forall s0, k :: Judged(s0, s, i, off, n, avail, ret, k) ==> Judged(s0, s', i, off, n, avail, ret, k)
    ensures s.l <= s'.l && CountedLogged(s, i, off, ret) ==> CountedLogged(s', i, off, ret)
  {
    hide AddrAt, Full, CopyTot, RunsOut, Lacking, Rounds;
  }

  lemma StillNew(sb: Super, s0: State, s: State, s': State, kept: Blocks, i: int, ib: int, off: int, ret: int, wr: int)
    requires NewIfLogged(s0, s, i, off, ret, wr) && KeptBut(sb, s, i, off, ret, wr, kept) && ib < sb.nmeta && s'.l == s.l + {ib}
    requires i in s.n && i in s'.n && |s.n[i].addrs| == 13 && |s'.n[i].addrs| == 13
    requires forall j | 0 <= j < SLOTS :: AddrAt(s'.b, s'.n[i], j) == AddrAt(s.b, s.n[i], j)
    ensures NewIfLogged(s0, s', i, off, ret, wr)
  {
    hide AddrAt;
  }

  /**
   * From the state before the call: what was written and what counts differ exactly when a copy
   * fails inside a chunk and there are blocks enough to get there.
   */
  lemma DiffersIff(s0: State, s: State, i: int, off: int, n: nat, avail: nat, ret: int, wr: int, k: nat)
    requires Stopped(s, i, off, n, avail, ret, wr) && Judged(s0, s, i, off, n, avail, ret, k)
    ensures wr > ret <==> avail < n && CopyTot(off, avail) < avail && !Lacking(s0, i, off, n, avail)
  {
    hide Lacking, RunsOut, Hole;
  }

  /** How much counts, too, follows from the state before the call. */
  lemma CountIs(s0: State, s: State, i: int, off: int, n: nat, avail: nat, ret: int, wr: int, k: nat)
    requires Stopped(s, i, off, n, avail, ret, wr) && Judged(s0, s, i, off, n, avail, ret, k) && 0 <= off
    ensures !Lacking(s0, i, off, n, avail) ==> ret == Goal(off, n, avail) && wr == if avail < n then avail else ret
    ensures Lacking(s0, i, off, n, avail) ==> RunsOut(s0, i, off, k, ret) && ret < n && wr == ret
  {
    hide Lacking, RunsOut, Hole;
  }

  lemma WrittenNoLoose(s0: State, s: State, i: int, off: int, data: seq<int>, ret: int, wr: int, k: int)
    requires WroteTo(s0, s, i, off, data, ret, wr, k)
    ensures NoLoose(s0.u) ==> NoLoose(s.u)
  {
    if NoLoose(s0.u) { NoneLoose(s0.u, s.u, i, off / BSIZE, off / BSIZE + k); }
  }

  /** What one round adds, in terms of what the file lacked to begin with. */
  lemma RoundPaid(sb: Super, s0: State, s1: State, s2: State, i: int, off: int, data: seq<int>, tot: int, t: set<int>, k: nat, addr: int)
    requires Writing(sb, s0, s1, i, off, data, tot, t, k) && Paid(sb, s0, s1, i, off / BSIZE, k)
    requires (off + tot) / BSIZE == off / BSIZE + k < MAXFILE
    requires if addr != 0 then Free(s2.u) + Lacks(s1.b, s1.n[i], off / BSIZE + k) == Free(s1.u)
             else Free(s1.u) < Lacks(s1.b, s1.n[i], off / BSIZE + k)
    ensures addr != 0 ==> Paid(sb, s0, s2, i, off / BSIZE, k + 1)
    ensures addr == 0 ==> LastRound(s0, i, off / BSIZE, k + 1)
  {
    hide Inv, Taken, LogCovers, Touched, SameFiles, ByteAt, NewLogged, CountedLogged, Free, Need, Lacks, AddrAt;
    if k > 0 { IndirectThere(s1.b, s1.n[i], off + tot, off / BSIZE + k - 1); }
    RoundLacks(sb, s0.b, s0.n, s0.u, s1.b, s1.n, s1.u, i, off / BSIZE, k);
  }

  lemma IndirectThere(b: Blocks, ip: Inode, lim: int, bn: int)
    requires MappedTo(b, ip, lim) && 0 <= bn && bn * BSIZE < lim
    ensures bn >= NDIRECT ==> ip.addrs[NDIRECT] != 0
  {
    assert AddrAt(b, ip, SlotOf(bn)) != 0;
  }

  /** Block b went from unused to the given slot. */
  ghost predicate Took(u0: Uses, u1: Uses, b: int, i: int, k: int) {
    b in u0 && u0[b] == Unused && u1 == u0[b := Slot(i, k)]
  }

  /** A new size, where every block below it is mapped. */
  lemma ExtendOk(sb: Super, s0: State, s: State, i: int, off: int, data: seq<int>, tot: int, wr: int, k: int)
    requires Inv(sb, s.b, s.n, s.u) && Wrote(s0.b, s0.n, s0.u, s.b, s.n, s.u, i, off, data, wr, k) && 0 <= tot <= wr
    requires MappedTo(s.b, s.n[i], off + tot)
    ensures var n' := Disk.WithSize(s.n, i, off + tot);
            && Inv(sb, s.b, n', s.u) && WroteTo(s0, s.(n := n'), i, off, data, tot, wr, k)
            && |s.n[i].addrs| == 13 && n'[i].addrs == s.n[i].addrs
            && forall j | 0 <= j < SLOTS :: AddrAt(s.b, n'[i], j) == AddrAt(s.b, s.n[i], j)
  {
    hide Inv, Taken, SameFile;
    var n' := Disk.WithSize(s.n, i, off + tot);
    forall j | 0 <= j < SLOTS ensures AddrAt(s.b, n'[i], j) == AddrAt(s.b, s.n[i], j) { }
    if off + tot > s.n[i].size {
      SizedOk(sb, s.b, s.n, s.u, i, off + tot);
      forall o | 0 <= o < MAXFILE * BSIZE ensures ByteAt(s.b, n'[i], o) == ByteAt(s.b, s.n[i], o) { }
      assert SameFiles(s0.b, s0.n, s.b, n', i);
    }
  }

  lemma SizedOk(sb: Super, b: Blocks, n: Inodes, u: Uses, i: int, size: int)
    requires Inv(sb, b, n, u) && i in n && 0 <= size && MappedTo(b, n[i], size)
    ensures Inv(sb, b, n[i := n[i].(size := size)], u)
  {
    var ip := n[i].(size := size);
    forall k | 0 <= k < SLOTS ensures AddrAt(b, ip, k) == AddrAt(b, n[i], k) { }
    assert FileOk(b, ip) by { hide AddrAt; }
    SizeOk(sb, b, n, u, -1, i, size);
  }

  /** iupdate() changes nothing of that. */
  lemma FinishOk(sb: Super, s0: State, s: State, i: int, off: int, data: seq<int>, tot: int, wr: int, k: int, l: set<int>)
    requires Inv(sb, s.b, s.n, s.u) && WroteTo(s0, s, i, off, data, tot, wr, k)
    ensures var ib := IBlock(sb, i);
            && i >= 0 && ib in s.b && |s.b[ib]| == BSIZE && |s.n[i].addrs| == 13 && 0 < ib < sb.bmapstart < sb.nmeta
            && var b' := s.b[ib := SetInode(s.b[ib], i, s.n[i])];
               && Inv(sb, b', s.n, s.u) && WroteTo(s0, s.(b := b', l := l), i, off, data, tot, wr, k) && OnDisk(sb, b', i, s.n[i])
               && (forall j | 0 <= j < SLOTS :: AddrAt(b', s.n[i], j) == AddrAt(s.b, s.n[i], j))
  {
    hide Inv, Taken, AddrAt, ByteAt, OnDisk, SetInode;
    InodeWriteOk(sb, s.b, s.n, s.u, i);
    InodeFits(sb, s.b, s.n, s.u, i);
    var b' := s.b[IBlock(sb, i) := SetInode(s.b[IBlock(sb, i)], i, s.n[i])];
    assert SameFile(s.b, s.n[i], b', s.n[i]);
    NoMinusOne(sb, s);
    SameFilesLess(s.b, s.n, b', s.n, i);
    SameFilesTrans(s0.b, s0.n, s.b, s.n, b', s.n, i);
  }

  lemma LoggedMore(sb: Super, u0: Uses, u1: Uses, u2: Uses, b1: Blocks, l1: set<int>, b2: Blocks, l2: set<int>, s: set<int>)
    requires NewLogged(u0, u1, l1) && NewLogged(u1, u2, l2) && LogCovers(sb, b1, l1, b2, l2, s)
    ensures NewLogged(u0, u2, l2)
  {
    hide InBitmap;
    NewLoggedTrans(u0, u1, u2, l1, l2);
  }

  lemma NoMinusOne(sb: Super, s: State)
    requires Inv(sb, s.b, s.n, s.u)
    ensures -1 !in s.n
  {
  }

  /** What writei() has logged, once iupdate() has logged the inode's block too. */
  lemma FinishLog(sb: Super, s0: State, s: State, i: int, off: int, data: seq<int>, tot: int, t: set<int>, k: nat, ip: Inode, kept: Blocks)
    requires Writing(sb, s0, s, i, off, data, tot, t, k) && i >= 0 && 0 < IBlock(sb, i) && IBlock(sb, i) in s.b && IBlock(sb, i) in kept
    requires kept == s.b[IBlock(sb, i) := kept[IBlock(sb, i)]] && |ip.addrs| == 13 && ip.addrs == s.n[i].addrs
    requires forall j | 0 <= j < SLOTS :: AddrAt(kept, ip, j) == AddrAt(s.b, s.n[i], j)
    ensures LogCovers(sb, s0.b, s0.l, kept, s.l + {IBlock(sb, i)}, Touched(kept, ip, off / BSIZE, k) + {IBlock(sb, i)})
  {
    hide Inv, AddrAt, LogCovers, Touched, SameFiles, Taken, ByteAt, MappedTo, NewLogged, CountedLogged;
    TouchedSame(s.b, s.n[i], kept, ip, off / BSIZE, k);
    var all := Touched(kept, ip, off / BSIZE, k) + {IBlock(sb, i)};
    LogMore(sb, s0.b, s0.l, s.b, s.l, t, all);
    LogOne(sb, s0.b, s0.l, s.b, s.l, IBlock(sb, i), kept[IBlock(sb, i)], all);
  }

  /** Until then no inode on the disk has changed. */
  lemma WritingSync(sb: Super, s0: State, s: State, i: int, off: int, data: seq<int>, tot: int, t: set<int>, k: nat, j: int, ip: Inode)
    requires Writing(sb, s0, s, i, off, data, tot, t, k) && j in s.n && OnDisk(sb, s0.b, j, ip)
    ensures OnDisk(sb, s.b, j, ip) && IBlock(sb, j) < sb.bmapstart < sb.nmeta
  {
    hide AddrAt, LogCovers, Touched, SameFiles, Taken, ByteAt, MappedTo, Inv, OnDisk, NewLogged, CountedLogged;
    InodeFits(sb, s.b, s.n, s.u, j);
    forall b | b in t && b != 0 ensures sb.nmeta <= b { TouchedIsData(sb, s.b, s.n, s.u, i, off / BSIZE, k, b); }
    InodesUndisturbed(sb, s0.b, s0.l, s.b, s.l, t, j, ip);
  }

  lemma SameInodeBlock(sb: Super, b1: Blocks, b2: Blocks, j: int, ip: Inode)
    requires OnDisk(sb, b1, j, ip) && IBlock(sb, j) in b2 && b2[IBlock(sb, j)] == b1[IBlock(sb, j)]
    ensures OnDisk(sb, b2, j, ip)
  {
  }

  class Disk {
    const sb: Super
    var blocks: Blocks            // what bread() shows
    var inodes: Inodes            // in-memory inodes
    var logged: set<int>          // blocks given to log_write()
    ghost var use: Uses

    ghost predicate Valid()
      reads this
    {
      Inv(sb, blocks, inodes, use)
    }

    ghost function Now(): State
      reads this
    {
      State(blocks, inodes, use, logged)
    }

    constructor (sb: Super, blocks: Blocks, inodes: Inodes, ghost use: Uses)
      requires Inv(sb, blocks, inodes, use)
      ensures Valid() && this.sb == sb && Now() == State(blocks, inodes, use, {})
    {
      this.sb, this.blocks, this.inodes, this.use, logged := sb, blocks, inodes, use, {};
    }

    /** bget() recycles the buffer of block b for another; the next bread() shows what `home`, the disk, has. */
    method Recycle(b: int, home: Blocks)
      requires b in blocks && b in home && b !in logged
      modifies this`blocks
      ensures blocks == old(blocks)[b := home[b]]
    {
      blocks := blocks[b := home[b]];
    }

    /** bzero(): log a zeroed block. */
    method Bzero(b: int)
      requires b in blocks
      modifies this`blocks, this`logged
      ensures blocks == old(blocks)[b := Zeros()] && logged == old(logged) + {b}
    {
      blocks := blocks[b := Zeros()];
      logged := logged + {b};
    }

    lemma ScanBit(b: int, bi: int)
      requires 0 <= b && b % BPB == 0 && 0 <= bi < BPB
      ensures BBlock(sb, b + bi) == BBlock(sb, b) && (b + bi) % BPB == bi && (b + bi) % 8 == bi % 8 && 0 <= bi / 8 < BSIZE
    {
      assert bi / 8 < BSIZE;
      Multiple(b / BPB, bi);
    }

    lemma Multiple(q: int, bi: int)
      requires 0 <= bi < BPB
      ensures (BPB * q + bi) / BPB == q && (BPB * q + bi) % BPB == bi && (BPB * q + bi) % 8 == bi % 8
    {
    }

    lemma BitmapThere(b: int)
      requires Valid() && 0 <= b < sb.size
      ensures BBlock(sb, b) in blocks && |blocks[BBlock(sb, b)]| == BSIZE && b in use && b in blocks
      ensures Marked(sb, blocks, b) <==> use[b] != Unused
      ensures use[b] == Unused ==> b > 0
    {
      hide Marked;
      BBlockOk(sb, b);
      BlockZero(sb, blocks, use);
    }

    lemma AllScanned()
      requires Valid() && forall b | 0 <= b < sb.size :: b in use && use[b] != Unused
      ensures Full(use)
    {
    }

    /** balloc(): the first unused block, zeroed and marked in use; 0 if the disk is full. */
    method Balloc() returns (r: int)
      requires Valid()
      modifies this`blocks, this`use, this`logged
      ensures Valid() && SameFiles(old(blocks), inodes, blocks, inodes, -1)
      ensures r == 0 <==> Full(old(use))
      ensures r == 0 ==> blocks == old(blocks) && use == old(use) && logged == old(logged)
      ensures r != 0 ==> r in old(use) && old(use)[r] == Unused && (forall c | 0 <= c < r :: c in old(use) && old(use)[c] != Unused)
      ensures r != 0 ==> use == old(use)[r := Loose] && r in blocks && blocks[r] == Zeros()
                         && logged == old(logged) + {BBlock(sb, r), r} && 0 < r < sb.size
      ensures r != 0 ==> forall c | c in old(blocks) && c != r && c != BBlock(sb, r) :: c in blocks && blocks[c] == old(blocks)[c]
    {
      hide BlocksOk, BitsOk, SlotsOk, FilesOk, SameFile, BitSet, WithBit;
      SameFilesRefl(blocks, inodes, -1);
      var b := 0;
      while b < sb.size
        invariant 0 <= b && b % BPB == 0 && Valid() && blocks == old(blocks) && use == old(use) && logged == old(logged)
        invariant forall c | 0 <= c < b && c < sb.size :: c in use && use[c] != Unused
      {
        BitmapThere(b);
        var bp := blocks[BBlock(sb, b)];
        var bi := 0;
        while bi < BPB && b + bi < sb.size
          invariant 0 <= bi <= BPB && Valid() && blocks == old(blocks) && use == old(use) && logged == old(logged)
          invariant forall c | 0 <= c < b + bi && c < sb.size :: c in use && use[c] != Unused
        {
          ScanBit(b, bi);
          BitmapThere(b + bi);
          if !BitSet(bp[bi / 8], bi % 8) {
            Take(b, bi, bp);
            return b + bi;
          }
          bi := bi + 1;
        }
        b := b + BPB;
      }
      AllScanned();
      return 0;
    }

    /** Mark block b + bi in the buffer of its bitmap block, and zero it. */
    method Take(b: int, bi: int, bp: seq<int>)
      requires Valid() && 0 <= b && b % BPB == 0 && 0 <= bi < BPB && b + bi < sb.size && b + bi in use && use[b + bi] == Unused
      requires BBlock(sb, b) in blocks && bp == blocks[BBlock(sb, b)]
      modifies this`blocks, this`use, this`logged
      ensures Valid() && SameFiles(old(blocks), inodes, blocks, inodes, -1) && use == old(use)[b + bi := Loose]
      ensures b + bi in blocks && blocks[b + bi] == Zeros() && logged == old(logged) + {BBlock(sb, b + bi), b + bi}
      ensures forall c | c in old(blocks) && c != b + bi && c != BBlock(sb, b + bi) :: c in blocks && blocks[c] == old(blocks)[c]
    {
      hide BlocksOk, BitsOk, SlotsOk, FilesOk, SameFile, BitSet, WithBit;
      ScanBit(b, bi);
      BitmapThere(b + bi);
      AllocOk(sb, blocks, inodes, use, b + bi);
      ghost var marked := Allocated(sb, blocks, b + bi);
      blocks := blocks[BBlock(sb, b) := bp[bi / 8 := WithBit(bp[bi / 8], bi % 8, true)]];
      logged := logged + {BBlock(sb, b)};
      use := use[b + bi := Loose];
      Bzero(b + bi);
      assert blocks == marked;
    }

    /** balloc() and ip->addrs[k] = addr, for an empty slot k <= 12; 0 if the disk is full. */
    method FillAddr(i: int, k: int) returns (b: int)
      requires Valid() && i in inodes && 0 <= k <= NDIRECT && |inodes[i].addrs| == 13 && inodes[i].addrs[k] == 0
      modifies this`blocks, this`inodes, this`use, this`logged
      ensures Valid() && SameFiles(old(blocks), old(inodes), blocks, inodes, -1)
      ensures LogCovers(sb, old(blocks), old(logged), blocks, logged, {b})
      ensures b == 0 ==> Full(use) && Now() == old(Now())
      ensures b != 0 ==> inodes == WithAddr(old(inodes), i, k, b) && Took(old(use), use, b, i, k) && b in logged
    {
      hide Inv, SameFiles, SameFile, InBitmap, LogCovers, Full;
      ghost var b0, u0, l0 := blocks, use, logged;
      b := Balloc();
      Allocating(b, b0, u0, l0);
      if b == 0 { return; }
      ghost var n0, n1 := inodes, WithAddr(inodes, i, k, b);
      LinkOk(sb, blocks, inodes, use, i, k, b);
      SameFilesTrans(b0, n0, blocks, n0, blocks, n1, -1);
      inodes := inodes[i := inodes[i].(addrs := inodes[i].addrs[k := b])];
      use := use[b := Slot(i, k)];
    }

    /** What Balloc() did, as the callers see it. */
    lemma Allocating(b: int, b0: Blocks, u0: Uses, l0: set<int>)
      requires Valid() && Inv(sb, b0, inodes, u0)
      requires b == 0 ==> Full(u0) && blocks == b0 && use == u0 && logged == l0
      requires b != 0 ==> use == u0[b := Loose] && logged == l0 + {BBlock(sb, b), b} && 0 < b < sb.size
      requires b != 0 ==> forall c | c in b0 && c != b && c != BBlock(sb, b) :: c in blocks && blocks[c] == b0[c]
      ensures LogCovers(sb, b0, l0, blocks, logged, {b})
      ensures b == 0 ==> Full(use)
    {
      hide SlotsOk, FilesOk, Marked, Bytes;
      if b != 0 { BitmapBlock(sb, b); }
    }

    lemma TookIsTaken(u0: Uses, u1: Uses, b: int, i: int, k: int, lo: int, hi: int)
      requires Took(u0, u1, b, i, k) && InSpan(k, lo, hi) && b in logged
      ensures Taken(u0, u1, i, lo, hi) && Free(u1) + 1 == Free(u0) && NewLogged(u0, u1, logged)
    {
      FreeOneLess(u0, b, Slot(i, k));
    }

    /** A new indirect block has no entries. */
    lemma NewIndirect(b0: Blocks, n0: Inodes, u0: Uses, b: int, i: int, k: int)
      requires Inv(sb, b0, n0, u0) && Valid() && Took(u0, use, b, i, NDIRECT) && i in n0 && i in inodes && 13 <= k < SLOTS
      requires |n0[i].addrs| == 13 && |inodes[i].addrs| == 13 && AddrAt(b0, n0[i], k) == 0
      ensures AddrAt(blocks, inodes[i], k) == 0
    {
      hide AddrAt, BitsOk, BlocksOk, FilesOk;
      assert IsSlot(n0, i, k) && IsSlot(inodes, i, k);
    }

    /** The last part of bmap(): balloc(), a[j] = addr and log_write(), for an empty entry j. */
    method FillEntry(i: int, j: int) returns (b: int)
      requires Valid() && i in inodes && |inodes[i].addrs| == 13 && 0 <= j < NINDIRECT
      requires inodes[i].addrs[NDIRECT] != 0 && AddrAt(blocks, inodes[i], 13 + j) == 0
      modifies this`blocks, this`use, this`logged
      ensures Valid() && SameFiles(old(blocks), inodes, blocks, inodes, -1)
      ensures LogCovers(sb, old(blocks), old(logged), blocks, logged, {b, inodes[i].addrs[NDIRECT]})
      ensures b == 0 ==> Full(use) && Now() == old(Now())
      ensures b != 0 ==> AddrAt(blocks, inodes[i], 13 + j) == b && Took(old(use), use, b, i, 13 + j) && b in logged
    {
      hide Inv, SameFiles, SameFile, InBitmap, LogCovers, Full, AddrAt, Word, SetWord;
      ghost var b0, u0, l0, n0 := blocks, use, logged, inodes;
      var ind := inodes[i].addrs[NDIRECT];
      b := Balloc();
      Allocating(b, b0, u0, l0);
      LogMore(sb, b0, l0, blocks, logged, {b}, {b, ind});
      if b == 0 { return; }
      ghost var b1, l1 := blocks, logged;
      EntryStays(b0, b1, u0, i, j, b);
      LinkEntryOk(sb, blocks, inodes, use, i, j, b);
      EntryIs(i, j, b);
      blocks := blocks[ind := SetWord(blocks[ind], j, b)];
      logged := logged + {ind};
      use := use[b := Slot(i, 13 + j)];
      SameFilesTrans(b0, n0, b1, n0, blocks, n0, -1);
      LogOne(sb, b0, l0, b1, l1, ind, blocks[ind], {b, ind});
    }

    lemma EntryStays(b0: Blocks, b1: Blocks, u0: Uses, i: int, j: int, b: int)
      requires Inv(sb, b0, inodes, u0) && i in inodes && |inodes[i].addrs| == 13 && 0 <= j < NINDIRECT && b in u0 && u0[b] == Unused
      requires 0 <= b && forall c | c in b0 && c != b && c != BBlock(sb, b) :: c in b1 && b1[c] == b0[c]
      ensures AddrAt(b1, inodes[i], 13 + j) == AddrAt(b0, inodes[i], 13 + j)
    {
      hide AddrAt, Marked, Bytes;
      BBlockOk(sb, b);
      AddrFrame(b0, b1, inodes, u0, -1, 0, i, 13 + j);
    }

    lemma EntryIs(i: int, j: int, b: int)
      requires i in inodes && |inodes[i].addrs| == 13 && 0 <= j < NINDIRECT && inodes[i].addrs[NDIRECT] != 0 && 0 <= b < sb.size
      requires Valid() && inodes[i].addrs[NDIRECT] in blocks && |blocks[inodes[i].addrs[NDIRECT]]| == BSIZE
      ensures var ind := inodes[i].addrs[NDIRECT];
              AddrAt(blocks[ind := SetWord(blocks[ind], j, b)], inodes[i], 13 + j) == b
    {
      WordOf(blocks[inodes[i].addrs[NDIRECT]], j, b, j);
    }

    /**
     * bmap(): the address of block bn of file i, allocated if necessary; 0 if the disk is full.
     * No file's bytes change.
     */
    method Bmap(i: int, bn: int) returns (addr: int)
      requires Valid() && i in inodes && |inodes[i].addrs| == 13 && 0 <= bn < MAXFILE
      modifies this`blocks, this`inodes, this`use, this`logged
      ensures Valid() && SameFiles(old(blocks), old(inodes), blocks, inodes, -1) && Taken(old(use), use, i, bn, bn + 1)
      ensures i in inodes && inodes == old(inodes)[i := inodes[i]] && |inodes[i].addrs| == 13
      ensures LogCovers(sb, old(blocks), old(logged), blocks, logged, {addr, inodes[i].addrs[NDIRECT]})
      ensures addr == AddrAt(blocks, inodes[i], SlotOf(bn)) && (addr == 0 ==> Full(use))
      ensures AddrAt(old(blocks), old(inodes)[i], SlotOf(bn)) != 0 ==> addr != 0 && Now() == old(Now())
      ensures NewLogged(old(use), use, logged)
      ensures if addr != 0 then Free(use) + Lacks(old(blocks), old(inodes)[i], bn) == Free(old(use))
              else Free(old(use)) < Lacks(old(blocks), old(inodes)[i], bn)
    {
      hide Inv, SameFiles, SameFile, InBitmap, Taken, LogCovers, Full, Word, Took, Free, NewLogged;
      ghost var b0, n0, u0, l0 := blocks, inodes, use, logged;
      Nothing(i, bn);
      if bn < NDIRECT {
        addr := inodes[i].addrs[bn];
        if addr == 0 {
          addr := FillAddr(i, bn);
          if addr != 0 { TookIsTaken(u0, use, addr, i, bn, bn, bn + 1); } else { FreeNone(use); }
        }
        LogMore(sb, b0, l0, blocks, logged, {addr}, {addr, inodes[i].addrs[NDIRECT]});
        return;
      }
      if inodes[i].addrs[NDIRECT] == 0 {
        addr := FillAddr(i, NDIRECT);
        if addr == 0 {
          LogMore(sb, b0, l0, blocks, logged, {addr}, {addr, inodes[i].addrs[NDIRECT]});
          FreeNone(use);
          return;
        }
        TookIsTaken(u0, use, addr, i, NDIRECT, bn, bn + 1);
        NewIndirect(b0, n0, u0, addr, i, SlotOf(bn));
      }
      ghost var b1, n1, u1, l1 := blocks, inodes, use, logged;
      ghost var ind := inodes[i].addrs[NDIRECT];
      Nothing(i, bn);
      addr := AddrOfEntry(i, bn - NDIRECT);
      if addr == 0 {
        addr := FillEntry(i, bn - NDIRECT);
        if addr != 0 { TookIsTaken(u1, use, addr, i, bn + 1, bn, bn + 1); } else { FreeNone(use); }
      }
      LoggedMore(sb, u0, u1, use, b1, l1, blocks, logged, {addr, ind});
      SameFilesTrans(b0, n0, b1, n1, blocks, inodes, -1);
      TakenTrans(u0, u1, use, i, bn, bn + 1, bn + 1);
      LogCoversTrans(sb, b0, l0, b1, l1, blocks, logged, {ind}, {addr, ind});
      LogMore(sb, b0, l0, blocks, logged, {ind} + {addr, ind}, {addr, ind});
    }

    lemma Nothing(i: int, bn: int)
      requires Valid()
      ensures SameFiles(blocks, inodes, blocks, inodes, -1) && Taken(use, use, i, bn, bn + 1)
      ensures forall s :: LogCovers(sb, blocks, logged, blocks, logged, s)
      ensures NewLogged(use, use, logged)
    {
      SameFilesRefl(blocks, inodes, -1);
    }

    /** a[j] in the indirect block. */
    method AddrOfEntry(i: int, j: int) returns (addr: int)
      requires Valid() && i in inodes && |inodes[i].addrs| == 13 && 0 <= j < NINDIRECT && inodes[i].addrs[NDIRECT] != 0
      ensures addr == AddrAt(blocks, inodes[i], 13 + j)
    {
      IndirectOwned(sb, blocks, inodes, use, i);
      addr := Word(blocks[inodes[i].addrs[NDIRECT]], j);
    }

    /** iupdate(): copy the size and the addresses to the inode's block and log it. */
    method IUpdate(i: int)
      requires Valid() && i in inodes
      modifies this`blocks, this`logged
      ensures Valid() && SameFiles(old(blocks), inodes, blocks, inodes, -1)
      ensures i >= 0 && logged == old(logged) + {IBlock(sb, i)} && OnDisk(sb, blocks, i, inodes[i])
      ensures forall j, ip | j != i && OnDisk(sb, old(blocks), j, ip) :: OnDisk(sb, blocks, j, ip)
      ensures IBlock(sb, i) in old(blocks) && |old(blocks)[IBlock(sb, i)]| == BSIZE && |inodes[i].addrs| == 13
      ensures blocks == old(blocks)[IBlock(sb, i) := SetInode(old(blocks)[IBlock(sb, i)], i, inodes[i])]
    {
      hide Inv, SameFiles, OnDisk, AddrAt, SetAddrs;
      InodeWriteOk(sb, blocks, inodes, use, i);
      var ib := IBlock(sb, i);
      blocks := blocks[ib := SetWord(blocks[ib], InodeWord(i, 2), inodes[i].size)];
      blocks := blocks[ib := SetAddrs(blocks[ib], i, inodes[i].addrs, 13)];
      assert blocks == old(blocks)[ib := SetInode(old(blocks)[ib], i, inodes[i])];
      logged := logged + {ib};
    }

    /** The bmap() of one round of writei(). */
    method WriteBmap(i: int, off: int, data: seq<int>, tot: int, ghost s0: State, ghost t0: set<int>, ghost k: nat)
      returns (addr: int, ghost t: set<int>)
      requires Writing(sb, s0, Now(), i, off, data, tot, t0, k) && 0 <= tot < |data| && off + |data| <= MAXFILE * BSIZE
      requires (off + tot) / BSIZE == off / BSIZE + k && Paid(sb, s0, Now(), i, off / BSIZE, k)
      modifies this`blocks, this`inodes, this`use, this`logged
      ensures Writing(sb, s0, Now(), i, off, data, tot, t, k + 1)
      ensures addr != 0 ==> Paid(sb, s0, Now(), i, off / BSIZE, k + 1)
      ensures addr == 0 ==> LastRound(s0, i, off / BSIZE, k + 1)
      ensures addr == AddrAt(blocks, inodes[i], SlotOf((off + tot) / BSIZE)) && (addr == 0 ==> Full(use))
      ensures addr != 0 && addr in t ==> addr in s0.u && s0.u[addr] == Unused
    {
      hide Inv, SameFile, Taken, LogCovers, Full, AddrAt, Touched, MappedTo, ByteAt, NewLogged, CountedLogged, Free, Need, Lacks;
      var bn := (off + tot) / BSIZE;
      ghost var s1 := Now();
      InodesFacts(i);
      addr := Bmap(i, bn);
      t := if AddrAt(s1.b, s1.n[i], SlotOf(bn)) != 0 then t0 else t0 + {addr, inodes[i].addrs[NDIRECT]};
      InodesFacts(i);
      RoundPaid(sb, s0, s1, Now(), i, off, data, tot, t0, k, addr);
      LoggedMore(sb, s0.u, s1.u, use, s1.b, s1.l, blocks, logged, {addr, inodes[i].addrs[NDIRECT]});
      StillLogged(s1, i, off, tot, bn, {addr, inodes[i].addrs[NDIRECT]});
      NewIsFresh(s0.u, s1, i, off / BSIZE, k, t0, addr);
      WroteAfterBmap(s0.b, s0.n, s0.u, s1.b, s1.n, s1.u, blocks, inodes, use, i, off, data, tot, k);
      MappedAfterBmap(sb, s1.b, s1.n, s1.u, blocks, inodes, use, i, bn, bn + 1, off + tot);
      LogCoversTrans(sb, s0.b, s0.l, s1.b, s1.l, blocks, logged, t0, {addr, inodes[i].addrs[NDIRECT]});
      forall b | b in t && b != 0 ensures b in Touched(blocks, inodes[i], off / BSIZE, k + 1) {
        TouchedNext(s1, i, off / BSIZE, k, b, addr);
      }
    }

    lemma StillLogged(s1: State, i: int, off: int, tot: int, bn: int, s: set<int>)
      requires CountedLogged(s1, i, off, tot) && Inv(sb, s1.b, s1.n, s1.u) && MappedTo(s1.b, s1.n[i], off + tot) && Valid() && i in inodes
      requires Taken(s1.u, use, i, bn, bn + 1) && LogCovers(sb, s1.b, s1.l, blocks, logged, s) && |inodes[i].addrs| == 13
      ensures CountedLogged(Now(), i, off, tot)
    {
      hide AddrAt, BitsOk, BlocksOk, FilesOk, Taken, InBitmap;
      forall o | off <= o < off + tot ensures AddrAt(blocks, inodes[i], SlotOf(o / BSIZE)) in logged {
        assert IsSlot(s1.n, i, SlotOf(o / BSIZE)) && o / BSIZE * BSIZE < off + tot;
        TakenKeepsAddrs(s1.b, s1.n, s1.u, blocks, inodes, use, i, bn, bn + 1, i, SlotOf(o / BSIZE));
      }
    }

    /** The block that bmap() found for round k was not used in an earlier round; if it is new it was unused all along. */
    lemma NewIsFresh(u0: Uses, s1: State, i: int, first: int, k: nat, t0: set<int>, addr: int)
      requires Inv(sb, s1.b, s1.n, s1.u) && Valid() && Taken(u0, s1.u, i, first, first + k) && Taken(s1.u, use, i, first + k, first + k + 1)
      requires i in s1.n && i in inodes && |s1.n[i].addrs| == 13 && |inodes[i].addrs| == 13 && 0 <= first && first + k < MAXFILE
      requires addr != 0 ==> addr == AddrAt(blocks, inodes[i], SlotOf(first + k))
      requires AddrAt(s1.b, s1.n[i], SlotOf(first + k)) != 0 ==> Now() == s1
      requires forall b | b in t0 && b != 0 :: b in Touched(s1.b, s1.n[i], first, k)
      ensures addr != 0 && AddrAt(s1.b, s1.n[i], SlotOf(first + k)) == 0 ==> addr in u0 && u0[addr] == Unused
      ensures addr != 0 && AddrAt(s1.b, s1.n[i], SlotOf(first + k)) != 0 ==> addr !in t0
    {
      hide AddrAt, BitsOk, BlocksOk, FilesOk, Touched;
      assert IsSlot(inodes, i, SlotOf(first + k)) && IsSlot(s1.n, i, SlotOf(first + k));
      if addr != 0 && AddrAt(s1.b, s1.n[i], SlotOf(first + k)) != 0 && addr in t0 {
        TouchedSlot(sb, s1.b, s1.n, s1.u, i, first, k, addr);
        assert false;
      }
    }

    lemma InodesFacts(i: int)
      requires Valid() && i in inodes
      ensures i >= 0 && -1 !in inodes && |inodes[i].addrs| == 13 && 0 <= inodes[i].size <= MAXFILE * BSIZE
      ensures MappedTo(blocks, inodes[i], inodes[i].size) && FilesOk(blocks, inodes, -1)
    {
      hide AddrAt;
    }

    lemma TouchedNext(s1: State, i: int, first: int, k: nat, b: int, addr: int)
      requires Inv(sb, s1.b, s1.n, s1.u) && Valid() && Taken(s1.u, use, i, first + k, first + k + 1) && i in s1.n && i in inodes
      requires |s1.n[i].addrs| == 13 && |inodes[i].addrs| == 13 && 0 <= first && first + k < MAXFILE && b != 0
      requires b in Touched(s1.b, s1.n[i], first, k) || b == addr || b == inodes[i].addrs[NDIRECT]
      requires addr != 0 ==> addr == AddrAt(blocks, inodes[i], SlotOf(first + k))
      ensures b in Touched(blocks, inodes[i], first, k + 1)
    {
      hide Inv, Taken;
      if b in Touched(s1.b, s1.n[i], first, k) {
        TouchedKept(sb, s1.b, s1.n, s1.u, blocks, inodes, use, i, first + k, first + k + 1, first, k, b);
      } else if b == inodes[i].addrs[NDIRECT] {
        TouchedHasIndirect(blocks, inodes[i], first, k + 1);
      }
    }

    /** either_copyin() of m bytes into the buffer. */
    method CopyIn(i: int, off: int, data: seq<int>, tot: int, m: int, addr: int, ghost s0: State, ghost t: set<int>, ghost k: nat)
      requires Writing(sb, s0, Now(), i, off, data, tot, t, k) && 0 <= tot <= tot + m <= |data| && off + |data| <= MAXFILE * BSIZE
      requires off + tot < MAXFILE * BSIZE && (off + tot) % BSIZE + m <= BSIZE
      requires forall j | 0 <= j < |data| :: 0 <= data[j] < 256
      requires addr != 0 && addr == AddrAt(blocks, inodes[i], SlotOf((off + tot) / BSIZE))
      modifies this`blocks
      ensures Valid() && Wrote(s0.b, s0.n, s0.u, blocks, inodes, use, i, off, data, tot + m, k)
      ensures addr in old(blocks) && sb.nmeta <= addr && addr in blocks && blocks == old(blocks)[addr := blocks[addr]]
      ensures forall j | 0 <= j < SLOTS :: AddrAt(blocks, inodes[i], j) == AddrAt(old(blocks), inodes[i], j)
    {
      hide Inv, SameFile, SameFiles, Taken, LogCovers, AddrAt, Touched, ByteAt, Splice, Bytes, NewLogged, CountedLogged;
      WroteChunk(sb, s0.b, s0.n, s0.u, blocks, inodes, use, i, off, data, tot, m, k);
      ChunkFits(addr);
      DataBlock(i, (off + tot) / BSIZE);
      blocks := blocks[addr := Splice(blocks[addr], (off + tot) % BSIZE, data[tot..tot + m])];
    }

    lemma ChunkFits(addr: int)
      requires addr in blocks && Bytes(blocks[addr])
      ensures |blocks[addr]| == BSIZE
    {
    }

    lemma DataBlock(i: int, bn: int)
      requires Valid() && i in inodes && |inodes[i].addrs| == 13 && 0 <= bn < MAXFILE && AddrAt(blocks, inodes[i], SlotOf(bn)) != 0
      ensures sb.nmeta <= AddrAt(blocks, inodes[i], SlotOf(bn)) < sb.size
    {
      hide AddrAt, Marked;
      assert IsSlot(inodes, i, SlotOf(bn));
      SlotOwned(sb, blocks, inodes, use, -1, 0, i, SlotOf(bn));
    }

    /** One full chunk: copy, log_write() and on to the next block. */
    method WriteChunk(i: int, off: int, data: seq<int>, tot: int, m: int, addr: int, ghost s0: State, ghost t: set<int>, ghost k: nat)
      requires k > 0 && (off + tot) / BSIZE == off / BSIZE + k - 1 && Writing(sb, s0, Now(), i, off, data, tot, t, k)
      requires 0 <= tot <= tot + m <= |data| && off + |data| <= MAXFILE * BSIZE
      requires off + tot < MAXFILE * BSIZE && (off + tot) % BSIZE + m <= BSIZE
      requires forall j | 0 <= j < |data| :: 0 <= data[j] < 256
      requires addr != 0 && addr == AddrAt(blocks, inodes[i], SlotOf((off + tot) / BSIZE))
      modifies this`blocks, this`logged
      ensures Writing(sb, s0, Now(), i, off, data, tot + m, t + {addr}, k)
    {
      hide Inv, SameFile, SameFiles, Taken, LogCovers, AddrAt, Touched, ByteAt, Wrote, NewLogged, CountedLogged;
      ghost var s1 := Now();
      WroteFacts(s0, s1, i, off, data, tot, k);
      TouchedHasLast(blocks, inodes[i], off / BSIZE, k);
      CopyIn(i, off, data, tot, m, addr, s0, t, k);
      SameAddrsMapped(s1.b, blocks, inodes[i], off + tot);
      TouchedSame(s1.b, inodes[i], blocks, inodes[i], off / BSIZE, k);
      logged := logged + {addr};
      ChunkLogged(s0.u, s1, i, off, tot, m, addr);
      MappedMore(blocks, inodes[i], off + tot, off + tot + m);
      LogMore(sb, s0.b, s0.l, s1.b, s1.l, t, t + {addr});
      LogOne(sb, s0.b, s0.l, s1.b, s1.l, addr, blocks[addr], t + {addr});
    }

    lemma ChunkLogged(u0: Uses, s1: State, i: int, off: int, tot: int, m: int, addr: int)
      requires NewLogged(u0, s1.u, s1.l) && CountedLogged(s1, i, off, tot) && inodes == s1.n && use == s1.u && logged == s1.l + {addr}
      requires 0 <= tot && 0 <= m && off + tot < MAXFILE * BSIZE && off + tot + m <= MAXFILE * BSIZE && (off + tot) % BSIZE + m <= BSIZE
      requires addr == AddrAt(s1.b, s1.n[i], SlotOf((off + tot) / BSIZE))
      requires forall j | 0 <= j < SLOTS :: AddrAt(blocks, inodes[i], j) == AddrAt(s1.b, inodes[i], j)
      ensures NewLogged(u0, use, logged) && CountedLogged(Now(), i, off, tot + m)
    {
      hide AddrAt;
      forall o | off <= o < off + tot + m ensures AddrAt(blocks, inodes[i], SlotOf(o / BSIZE)) in logged {
        if o >= off + tot { assert o / BSIZE == (off + tot) / BSIZE; }
      }
    }

    lemma WroteFacts(s0: State, s: State, i: int, off: int, data: seq<int>, wr: int, k: int)
      requires Wrote(s0.b, s0.n, s0.u, s.b, s.n, s.u, i, off, data, wr, k)
      ensures i in s.n && |s.n[i].addrs| == 13 && 0 <= off
    {
    }

    lemma SameAddrsMapped(b1: Blocks, b2: Blocks, ip: Inode, lim: int)
      requires MappedTo(b1, ip, lim) && forall k | 0 <= k < SLOTS :: AddrAt(b2, ip, k) == AddrAt(b1, ip, k)
      ensures MappedTo(b2, ip, lim)
    {
      hide AddrAt;
    }

    /**
     * writei(): `data` at offset `off` of file i, of which the source of the copy yields the first
     * `avail` bytes.  Returns how many bytes count as written, or -1.
     *
     * `wr` is how many changed the file's blocks as bread() shows them: more than those that count
     * when a copy fails inside a chunk.  That chunk's buffer is released without log_write(): the bytes
     * beyond those that count are lost if bget() recycles the buffer, and reach the disk if the block
     * is in the log when a transaction commits (module GroupCommit).  `kept` are the blocks without
     * them.  `k` is the number of rounds.
     */
    method WriteI(i: int, off: int, data: seq<int>, avail: nat) returns (ret: int, ghost wr: int, ghost kept: Blocks, ghost k: nat)
      requires Valid() && i in inodes && 0 <= off < U32 && |data| < U32 && forall j | 0 <= j < |data| :: 0 <= data[j] < 256
      modifies this`blocks, this`inodes, this`use, this`logged
      ensures Valid() && i in inodes && |inodes[i].addrs| == 13
      ensures ret == -1 <==> off > old(inodes)[i].size || off + |data| > MAXFILE * BSIZE
      ensures ret == -1 ==> Now() == old(Now()) && kept == blocks
      ensures ret != -1 ==> Stopped(Now(), i, off, |data|, avail, ret, wr) && WroteTo(old(Now()), Now(), i, off, data, ret, wr, k)
      ensures ret != -1 ==> (wr > ret <==> avail < |data| && CopyTot(off, avail) < avail && !Lacking(old(Now()), i, off, |data|, avail))
      ensures ret != -1 ==> if Lacking(old(Now()), i, off, |data|, avail) then ret < |data| && wr == ret && RunsOut(old(Now()), i, off, k, ret)
                            else ret == Goal(off, |data|, avail) && wr == if avail < |data| then avail else ret
      ensures ret != -1 ==> NewLogged(old(use), use, logged) && CountedLogged(Now(), i, off, ret) && (NoLoose(old(use)) ==> NoLoose(use))
      ensures ret != -1 ==> Inv(sb, kept, inodes, use) && WroteTo(old(Now()), Now().(b := kept), i, off, data, ret, ret, k)
      ensures ret != -1 ==> KeptBut(sb, Now(), i, off, ret, wr, kept) && NewIfLogged(old(Now()), Now(), i, off, ret, wr)
      ensures ret != -1 ==> k <= Span(off, |data|) && off / BSIZE + k <= MAXFILE
                            && LogCovers(sb, old(blocks), old(logged), kept, logged, Touched(kept, inodes[i], off / BSIZE, k) + {IBlock(sb, i)})
      ensures ret != -1 ==> OnDisk(sb, kept, i, inodes[i]) && OnDisk(sb, blocks, i, inodes[i]) && IBlock(sb, i) in logged
      ensures Synced(sb, old(blocks), old(inodes)) ==> Synced(sb, kept, inodes) && Synced(sb, blocks, inodes)
    {
      hide Inv, AddrAt, LogCovers, Touched, Full, WroteTo, OnDisk, Ended, Stopped, KeptBut, NewIfLogged, CopyTot, Synced,
           Judged, Lacking, RunsOut, Goal, NewLogged, CountedLogged, NoLoose;
      InodesFacts(i);
      ghost var s0, t := Now(), {};
      wr, kept, k := 0, blocks, 0;
      if off > inodes[i].size || (off + |data|) % U32 < off { return -1, 0, kept, 0; }
      if off + |data| > MAXFILE * BSIZE { return -1, 0, kept, 0; }
      ret, wr, kept, t, k := WriteLoop(i, off, data, avail);
      kept := FinishWrite(i, off, data, avail, ret, wr, s0, t, k, kept);
      InodesFacts(i);
      DiffersIff(s0, Now(), i, off, |data|, avail, ret, wr, k);
      CountIs(s0, Now(), i, off, |data|, avail, ret, wr, k);
      WrittenNoLoose(s0, Now(), i, off, data, ret, wr, k);
    }

    /** The loop of writei(). */
    method WriteLoop(i: int, off: int, data: seq<int>, avail: nat) returns (tot: int, ghost wr: int, ghost kept: Blocks, ghost t: set<int>, ghost k: nat)
      requires Valid() && i in inodes && 0 <= off <= inodes[i].size && off + |data| <= MAXFILE * BSIZE
      requires forall j | 0 <= j < |data| :: 0 <= data[j] < 256
      modifies this`blocks, this`inodes, this`use, this`logged
      ensures Ended(sb, old(Now()), Now(), i, off, data, avail, tot, wr, kept, t, k)
    {
      hide Inv, Writing, Ended, Stopped, Paid;
      ghost var s0 := Now();
      tot, t, k := 0, {}, 0;
      WritingStarts(i, off, data);
      var more := true;
      while tot < |data|
        invariant 0 <= tot <= |data| && tot <= avail && (tot == 0 || tot == |data| || (off + tot) % BSIZE == 0)
        invariant Writing(sb, s0, Now(), i, off, data, tot, t, k)
        invariant k <= Span(off, |data|) && (if tot < |data| then (off + tot) / BSIZE == off / BSIZE + k else k == Span(off, |data|))
        invariant Paid(sb, s0, Now(), i, off / BSIZE, k)
      {
        more, tot, wr, kept, t := WriteRound(i, off, data, avail, tot, s0, t, k);
        k := k + 1;
        if !more { return; }
      }
      wr, kept := tot, blocks;
      AllWritten(s0, i, off, data, avail, t, k);
    }

    lemma AllWritten(s0: State, i: int, off: int, data: seq<int>, avail: nat, t: set<int>, k: nat)
      requires Writing(sb, s0, Now(), i, off, data, |data|, t, k) && |data| <= avail && k == Span(off, |data|)
      requires Paid(sb, s0, Now(), i, off / BSIZE, k)
      ensures Ended(sb, s0, Now(), i, off, data, avail, |data|, |data|, blocks, t, k)
    {
      hide Inv, AddrAt, ByteAt, LogCovers, MappedTo, Touched, NewLogged, Need, Free, SameFiles, Taken;
      EndedAll(sb, s0, Now(), i, off, data, avail, |data|, t, k);
    }

    /** One round of writei()'s loop: `more` unless it broke off. */
    method WriteRound(i: int, off: int, data: seq<int>, avail: nat, tot: int, ghost s0: State, ghost t0: set<int>, ghost k: nat)
      returns (more: bool, tot': int, ghost wr: int, ghost kept: Blocks, ghost t: set<int>)
      requires 0 <= tot < |data| && tot <= avail && (tot == 0 || (off + tot) % BSIZE == 0) && 0 <= off && off + |data| <= MAXFILE * BSIZE
      requires Writing(sb, s0, Now(), i, off, data, tot, t0, k) && k <= Span(off, |data|) && (off + tot) / BSIZE == off / BSIZE + k
      requires Paid(sb, s0, Now(), i, off / BSIZE, k) && forall j | 0 <= j < |data| :: 0 <= data[j] < 256
      modifies this`blocks, this`inodes, this`use, this`logged
      ensures k + 1 <= Span(off, |data|)
      ensures !more ==> Ended(sb, s0, Now(), i, off, data, avail, tot', wr, kept, t, k + 1)
      ensures more ==> && tot < tot' <= |data| && tot' <= avail && (tot' == |data| || (off + tot') % BSIZE == 0)
                       && Writing(sb, s0, Now(), i, off, data, tot', t, k + 1)
                       && (if tot' < |data| then (off + tot') / BSIZE == off / BSIZE + k + 1 else k + 1 == Span(off, |data|))
                       && Paid(sb, s0, Now(), i, off / BSIZE, k + 1)
    {
      hide Inv, AddrAt, Writing, Ended, Stopped, Full, Goal, Paid, LastRound, Rounds;
      var addr, m;
      RoundFits(off, tot, |data|, avail, k);
      addr, t := WriteBmap(i, off, data, tot, s0, t0, k);
      tot', wr, kept := tot, tot, blocks;
      AtMostGoal(off, tot, |data|, avail);
      if addr == 0 {
        NoBlock(s0, i, off, data, avail, tot, t, k + 1);
        return false, tot', wr, kept, t;
      }
      m := if |data| - tot < BSIZE - (off + tot) % BSIZE then |data| - tot else BSIZE - (off + tot) % BSIZE;
      if tot + m > avail {
        CopyFails(i, off, data, avail, tot, addr, s0, t, k + 1);
        return false, tot', avail, kept, t;
      }
      ghost var s1 := Now();
      WriteChunk(i, off, data, tot, m, addr, s0, t, k + 1);
      StillPaid(s0, s1, i, off / BSIZE, k + 1);
      NextBlock(off, tot, m, k + 1, |data|);
      return true, tot + m, tot + m, kept, t + {addr};
    }

    lemma StillPaid(s0: State, s: State, i: int, first: int, k: nat)
      requires Paid(sb, s0, s, i, first, k) && use == s.u && k > 0
      ensures Paid(sb, s0, Now(), i, first, k)
    {
    }

    /** bmap() found no block: the disk is full. */
    lemma NoBlock(s0: State, i: int, off: int, data: seq<int>, avail: nat, tot: int, t: set<int>, k: nat)
      requires Writing(sb, s0, Now(), i, off, data, tot, t, k) && k <= Span(off, |data|) && off + |data| <= MAXFILE * BSIZE
      requires 0 <= off && 0 <= tot < |data| && tot <= Goal(off, |data|, avail) && (tot == 0 || (off + tot) % BSIZE == 0)
      requires Full(use) && AddrAt(blocks, inodes[i], SlotOf((off + tot) / BSIZE)) == 0
      requires RunsOut(s0, i, off, k, tot) && k <= Rounds(off, |data|, avail)
      ensures Ended(sb, s0, Now(), i, off, data, avail, tot, tot, blocks, t, k)
    {
      hide Inv, AddrAt, ByteAt, LogCovers, MappedTo, Touched, Full, LastRound, Rounds, NewLogged, SameFiles, Taken;
      LacksLater(s0, i, off, |data|, avail, k, tot);
      EndedAll(sb, s0, Now(), i, off, data, avail, tot, t, k);
    }

    lemma LacksLater(s0: State, i: int, off: int, n: nat, avail: nat, k: nat, tot: int)
      requires RunsOut(s0, i, off, k, tot) && k <= Rounds(off, n, avail) && off + n <= MAXFILE * BSIZE
      ensures Lacking(s0, i, off, n, avail)
    {
      assert off / BSIZE + Rounds(off, n, avail) <= MAXFILE;
      NeedMonotone(s0.b, s0.n[i], off / BSIZE, k, Rounds(off, n, avail));
    }

    /** either_copyin() fails: it copied what there was, and the buffer is released without log_write(). */
    method CopyFails(i: int, off: int, data: seq<int>, avail: nat, tot: int, addr: int, ghost s0: State, ghost t: set<int>, ghost k: nat)
      requires Writing(sb, s0, Now(), i, off, data, tot, t, k) && k <= Span(off, |data|) && off + |data| <= MAXFILE * BSIZE
      requires 0 <= off && 0 <= tot <= avail < |data| && tot == Goal(off, |data|, avail) && (tot == 0 || (off + tot) % BSIZE == 0)
      requires (off + tot) % BSIZE + (avail - tot) <= BSIZE && forall j | 0 <= j < |data| :: 0 <= data[j] < 256
      requires addr != 0 && addr == AddrAt(blocks, inodes[i], SlotOf((off + tot) / BSIZE))
      requires addr in t ==> addr in s0.u && s0.u[addr] == Unused
      requires Paid(sb, s0, Now(), i, off / BSIZE, k) && k == Rounds(off, |data|, avail)
      modifies this`blocks
      ensures Ended(sb, s0, Now(), i, off, data, avail, tot, avail, old(blocks), t, k)
    {
      hide Inv, AddrAt, ByteAt, LogCovers, MappedTo, Touched, Full, Goal, SameFiles, Taken, NewLogged, CountedLogged, Need, Free, Rounds;
      if avail > tot {
        OnlyLogged(s0, i, off, data, tot, t, k, addr);
        CopyIn(i, off, data, tot, avail - tot, addr, s0, t, k);
      }
    }

    lemma OnlyLogged(s0: State, i: int, off: int, data: seq<int>, tot: int, t: set<int>, k: nat, addr: int)
      requires Writing(sb, s0, Now(), i, off, data, tot, t, k) && off + |data| <= MAXFILE * BSIZE && 0 <= off && 0 <= tot < |data|
      requires addr != 0 && addr == AddrAt(blocks, inodes[i], SlotOf((off + tot) / BSIZE))
      ensures addr in logged && addr !in s0.l ==> addr in t
    {
      hide AddrAt, ByteAt, MappedTo, Touched, SameFiles, Taken, Inv, NewLogged, CountedLogged;
      DataBlock(i, (off + tot) / BSIZE);
      BitmapLow(sb, blocks, inodes, use, addr);
    }

    lemma WritingStarts(i: int, off: int, data: seq<int>)
      requires Valid() && i in inodes && 0 <= off <= inodes[i].size && off + |data| <= MAXFILE * BSIZE
      ensures Writing(sb, Now(), Now(), i, off, data, 0, {}, 0) && Paid(sb, Now(), Now(), i, off / BSIZE, 0)
    {
      hide Inv, ByteAt, AddrAt;
      InodesFacts(i);
      WroteNothing(blocks, inodes, use, i, off, data);
      Nothing(i, 0);
      assert MappedTo(blocks, inodes[i], off);
    }

    lemma WritingFacts(s0: State, s: State, i: int, off: int, data: seq<int>, tot: int, t: set<int>, k: nat)
      requires Writing(sb, s0, s, i, off, data, tot, t, k)
      ensures Inv(sb, s.b, s.n, s.u) && i in s.n && |s.n[i].addrs| == 13 && 0 <= off && off / BSIZE + k <= MAXFILE && s0.b.Keys == s.b.Keys
      ensures Wrote(s0.b, s0.n, s0.u, s.b, s.n, s.u, i, off, data, tot, k) && MappedTo(s.b, s.n[i], off + tot)
    {
    }

    lemma NextBlock(off: int, tot: int, m: int, k: nat, n: int)
      requires 0 <= off && 0 <= tot < n && m == (if n - tot < BSIZE - (off + tot) % BSIZE then n - tot else BSIZE - (off + tot) % BSIZE)
      requires (off + tot) / BSIZE + 1 == off / BSIZE + k
      ensures 0 < m && tot + m <= n && (tot + m < n ==> (off + tot + m) / BSIZE == off / BSIZE + k && (off + tot + m) % BSIZE == 0)
      ensures tot + m == n ==> k == Span(off, n)
    {
    }

    lemma RoundFits(off: int, tot: int, n: int, avail: nat, k: nat)
      requires 0 <= off && 0 <= tot < n && tot <= avail && (off + tot) / BSIZE == off / BSIZE + k && (tot == 0 || (off + tot) % BSIZE == 0)
      ensures k + 1 <= Rounds(off, n, avail) <= Span(off, n) && tot == if k == 0 then 0 else (off / BSIZE + k) * BSIZE - off
      ensures avail < n && (off + tot) / BSIZE == (off + avail) / BSIZE ==> k + 1 == Rounds(off, n, avail)
    {
    }

    /** Where the chunks end: none beyond the goal, and the goal itself when the next chunk cannot be copied. */
    lemma AtMostGoal(off: int, tot: int, n: nat, avail: nat)
      requires 0 <= off && 0 <= tot < n && tot <= avail && (tot == 0 || (off + tot) % BSIZE == 0)
      ensures tot <= Goal(off, n, avail)
      ensures tot + (if n - tot < BSIZE - (off + tot) % BSIZE then n - tot else BSIZE - (off + tot) % BSIZE) > avail ==>
                tot == Goal(off, n, avail) && avail < n
    {
      if avail < n { ChunksEnd(off, tot, avail); }
    }

    lemma ChunksEnd(off: int, tot: int, avail: nat)
      requires 0 <= off && 0 <= tot <= avail && (tot == 0 || (off + tot) % BSIZE == 0)
      ensures tot <= CopyTot(off, avail)
      ensures avail - tot < BSIZE - (off + tot) % BSIZE ==> tot == CopyTot(off, avail)
    {
      if tot > 0 {
        var q := (off + tot) / BSIZE;
        assert off + tot == q * BSIZE && off / BSIZE < q <= (off + avail) / BSIZE;
      }
    }

    static function WithSize(n: Inodes, i: int, size: int): Inodes
      requires i in n
    {
      if size > n[i].size then n[i := n[i].(size := size)] else n
    }

    /** The end of writei(): extend the size, and iupdate(). */
    method FinishWrite(i: int, off: int, data: seq<int>, ghost avail: nat, tot: int, ghost wr: int, ghost s0: State, ghost t: set<int>, ghost k: nat,
                       ghost kept0: Blocks) returns (ghost kept: Blocks)
      requires Ended(sb, s0, Now(), i, off, data, avail, tot, wr, kept0, t, k)
      modifies this`blocks, this`inodes, this`logged
      ensures Stopped(Now(), i, off, |data|, avail, tot, wr) && KeptBut(sb, Now(), i, off, tot, wr, kept) && 0 <= tot && k <= Span(off, |data|)
      ensures NewIfLogged(s0, Now(), i, off, tot, wr) && Judged(s0, Now(), i, off, |data|, avail, tot, k)
      ensures NewLogged(s0.u, use, logged) && CountedLogged(Now(), i, off, tot)
      ensures Valid() && WroteTo(s0, Now(), i, off, data, tot, wr, k)
      ensures Inv(sb, kept, inodes, use) && WroteTo(s0, Now().(b := kept), i, off, data, tot, tot, k)
      ensures i in inodes && |inodes[i].addrs| == 13 && off / BSIZE + k <= MAXFILE && 0 <= off
      ensures LogCovers(sb, s0.b, s0.l, kept, logged, Touched(kept, inodes[i], off / BSIZE, k) + {IBlock(sb, i)})
      ensures OnDisk(sb, kept, i, inodes[i]) && OnDisk(sb, blocks, i, inodes[i]) && IBlock(sb, i) in logged
      ensures Synced(sb, s0.b, s0.n) ==> Synced(sb, kept, inodes) && Synced(sb, blocks, inodes)
    {
      hide Inv, SameFile, SameFiles, LogCovers, Touched, Taken, AddrAt, ByteAt, MappedTo, OnDisk, Wrote, WroteTo, Writing, SetInode,
           Stopped, KeptBut, NewIfLogged, Judged, NewLogged, CountedLogged;
      ghost var after, before := Now(), Now().(b := kept0);
      WritingFacts(s0, before, i, off, data, tot, t, k);
      MetaKept(after, i, off, tot, wr, kept0);
      SameAddrsMapped(kept0, blocks, inodes[i], off + tot);
      ExtendOk(sb, s0, Now(), i, off, data, tot, wr, k);
      ExtendOk(sb, s0, before, i, off, data, tot, tot, k);
      if off + tot > inodes[i].size {
        inodes := inodes[i := inodes[i].(size := off + tot)];
      }
      ghost var extended, extended0 := Now(), Now().(b := kept0);
      FinishOk(sb, s0, extended, i, off, data, tot, wr, k, logged + {IBlock(sb, i)});
      FinishOk(sb, s0, extended0, i, off, data, tot, tot, k, logged + {IBlock(sb, i)});
      IUpdate(i);
      kept := kept0[IBlock(sb, i) := blocks[IBlock(sb, i)]];
      FinishLog(sb, s0, before, i, off, data, tot, t, k, inodes[i], kept);
      FinishSync(s0, before, i, off, data, tot, t, k, kept, old(blocks));
      StoppedStays(sb, after, kept0, Now(), kept, i, IBlock(sb, i), off, |data|, avail, tot, wr);
      EndLogged(s0, before, Now(), i, off, data, tot, t, k);
      StillNew(sb, s0, after, Now(), kept0, i, IBlock(sb, i), off, tot, wr);
    }

    lemma EndLogged(s0: State, s: State, s': State, i: int, off: int, data: seq<int>, tot: int, t: set<int>, k: nat)
      requires Writing(sb, s0, s, i, off, data, tot, t, k) && s.l <= s'.l && s'.u == s.u && i in s'.n && |s'.n[i].addrs| == 13
      requires forall j | 0 <= j < SLOTS :: AddrAt(s'.b, s'.n[i], j) == AddrAt(s.b, s.n[i], j)
      ensures NewLogged(s0.u, s'.u, s'.l) && CountedLogged(s', i, off, tot)
    {
      hide AddrAt, LogCovers, Touched, SameFiles, Taken, ByteAt, MappedTo, Inv;
    }

    lemma MetaKept(s: State, i: int, off: int, ret: int, wr: int, kept: Blocks)
      requires KeptBut(sb, s, i, off, ret, wr, kept)
      ensures s.b.Keys == kept.Keys && forall b | b in s.b && b < sb.nmeta :: s.b[b] == kept[b]
    {
      hide AddrAt;
    }

    lemma FinishSync(s0: State, s: State, i: int, off: int, data: seq<int>, tot: int, t: set<int>, k: nat, kept: Blocks, before: Blocks)
      requires Writing(sb, s0, s, i, off, data, tot, t, k) && i in inodes && inodes == s.n[i := inodes[i]]
      requires OnDisk(sb, kept, i, inodes[i]) && OnDisk(sb, blocks, i, inodes[i])
      requires forall b | b in s.b && b < sb.nmeta :: b in before && before[b] == s.b[b]
      requires forall b | b in blocks && b < sb.nmeta :: b in kept && kept[b] == blocks[b]
      requires forall j, ip | j != i && OnDisk(sb, before, j, ip) :: OnDisk(sb, blocks, j, ip)
      ensures Synced(sb, s0.b, s0.n) ==> Synced(sb, kept, inodes) && Synced(sb, blocks, inodes)
    {
      hide LogCovers, Touched, SameFiles, Taken, ByteAt, MappedTo, Inv, AddrAt, DInode, NewLogged, CountedLogged;
      if Synced(sb, s0.b, s0.n) {
        forall j | j in inodes ensures OnDisk(sb, kept, j, inodes[j]) && OnDisk(sb, blocks, j, inodes[j]) {
          if j != i {
            assert OnDisk(sb, s0.b, j, inodes[j]);
            WritingSync(sb, s0, s, i, off, data, tot, t, k, j, inodes[j]);
            SameInodeBlock(sb, s.b, before, j, inodes[j]);
            SameInodeBlock(sb, blocks, kept, j, inodes[j]);
          }
        }
      }
    }

    /** Every block that writei() of n bytes logs, counted: `kept` and `k` are its ghost results. */
    lemma WriteBudget(b0: Blocks, l0: set<int>, kept: Blocks, i: int, off: int, n: int, k: nat)
      requires i in inodes && |inodes[i].addrs| == 13 && 0 <= off && 0 <= n && 0 < sb.size && k <= Span(off, n) && off / BSIZE + k <= MAXFILE
      requires LogCovers(sb, b0, l0, kept, logged, Touched(kept, inodes[i], off / BSIZE, k) + {IBlock(sb, i)})
      ensures |logged - l0| <= Span(off, n) + 2 + (sb.size - 1) / BPB + 1
    {
      var touched := Touched(kept, inodes[i], off / BSIZE, k);
      var bitmap := Range(sb.bmapstart, (sb.size - 1) / BPB + 1);
      TouchedSize(kept, inodes[i], off / BSIZE, k);
      assert logged - l0 <= touched + {IBlock(sb, i)} + bitmap;
      SubsetSize(logged - l0, touched + {IBlock(sb, i)} + bitmap);
    }

    /**
     * filewrite() writes at most 3 blocks' worth at a time; with one bitmap block (as mkfs makes)
     * that stays below MAXOPBLOCKS logged blocks.
     */
    lemma FileWriteFits(b0: Blocks, l0: set<int>, kept: Blocks, i: int, off: int, n: int, k: nat)
      requires i in inodes && |inodes[i].addrs| == 13 && 0 <= off && 0 <= n <= (MAXOPBLOCKS - 1 - 1 - 2) / 2 * BSIZE && 0 < sb.size <= BPB
      requires k <= Span(off, n) && off / BSIZE + k <= MAXFILE
      requires LogCovers(sb, b0, l0, kept, logged, Touched(kept, inodes[i], off / BSIZE, k) + {IBlock(sb, i)})
      ensures |logged - l0| <= 7
    {
      WriteBudget(b0, l0, kept, i, off, n, k);
      assert Span(off, n) <= 4;
    }

    /**
     * readi(): up to n bytes from offset `off`, of which the destination takes the first `avail`;
     * `got` is what reached it.  Nothing changes.
     */
    method ReadI(i: int, off: int, n: int, avail: nat) returns (ret: int, got: seq<int>)
      requires Valid() && i in inodes && 0 <= off < U32 && 0 <= n < U32
      modifies this`blocks, this`inodes, this`use, this`logged
      ensures Now() == old(Now()) && |inodes[i].addrs| == 13 && 0 <= inodes[i].size <= MAXFILE * BSIZE
      ensures var size := inodes[i].size;
              var len := if off > size || off + n >= U32 then 0 else if off + n > size then size - off else n;
              && ret == (if avail >= len then len else -1)
              && (len == 0 ==> got == []) && (len > 0 ==> Got(i, off, if avail >= len then len else avail, got))
    {
      hide Inv, SameFile, SameFiles, Taken, LogCovers, AddrAt, Full, MappedTo, Got;
      InodesFacts(i);
      ghost var s0 := Now();
      if off > inodes[i].size || (off + n) % U32 < off { return 0, []; }
      var len := if off + n > inodes[i].size then inodes[i].size - off else n;
      var tot := 0;
      got := [];
      GotNothing(i, off);
      while tot < len
        invariant 0 <= tot <= len && tot <= avail && Now() == s0 && Got(i, off, tot, got) && (tot == 0 ==> got == [])
      {
        var o := off + tot;
        var addr;
        Below(i, o);
        addr := Bmap(i, o / BSIZE);
        if addr == 0 { break; }
        var m := if len - tot < BSIZE - o % BSIZE then len - tot else BSIZE - o % BSIZE;
        if tot + m > avail {
          ReadChunk(i, off, tot, avail - tot, addr, got);
          return -1, got + blocks[addr][o % BSIZE..o % BSIZE + (avail - tot)];
        }
        ReadChunk(i, off, tot, m, addr, got);
        got := got + blocks[addr][o % BSIZE..o % BSIZE + m];
        tot := tot + m;
      }
      ret := tot;
    }

    /** `got` are m bytes of the contents of file i, from offset `off`. */
    ghost predicate Got(i: int, off: int, m: int, got: seq<int>)
      reads this
    {
      && i in inodes && |inodes[i].addrs| == 13 && 0 <= inodes[i].size <= MAXFILE * BSIZE && 0 <= off && 0 <= m && off + m <= inodes[i].size
      && got == Contents(blocks, inodes[i])[off..off + m]
    }

    lemma GotNothing(i: int, off: int)
      requires i in inodes && |inodes[i].addrs| == 13 && 0 <= off <= inodes[i].size <= MAXFILE * BSIZE
      ensures Got(i, off, 0, [])
    {
      hide ByteAt;
    }

    lemma Below(i: int, o: int)
      requires Valid() && i in inodes && 0 <= o < inodes[i].size
      ensures |inodes[i].addrs| == 13 && inodes[i].size <= MAXFILE * BSIZE && o / BSIZE < MAXFILE
      ensures var addr := AddrAt(blocks, inodes[i], SlotOf(o / BSIZE)); addr != 0 && addr in blocks && |blocks[addr]| == BSIZE
    {
      hide AddrAt, SlotsOk, BitsOk, BlocksOk, Bytes;
      assert FileOk(blocks, inodes[i]);
      assert o / BSIZE * BSIZE < inodes[i].size;
      assert IsSlot(inodes, i, SlotOf(o / BSIZE));
      SlotOwned(sb, blocks, inodes, use, -1, 0, i, SlotOf(o / BSIZE));
      ChunkFits(AddrAt(blocks, inodes[i], SlotOf(o / BSIZE)));
    }

    lemma ReadChunk(i: int, off: int, tot: int, m: int, addr: int, got: seq<int>)
      requires Got(i, off, tot, got) && off + tot < inodes[i].size
      requires 0 <= m && off + tot + m <= inodes[i].size && (off + tot) % BSIZE + m <= BSIZE
      requires addr != 0 && addr == AddrAt(blocks, inodes[i], SlotOf((off + tot) / BSIZE)) && addr in blocks && |blocks[addr]| == BSIZE
      ensures Got(i, off, tot + m, got + blocks[addr][(off + tot) % BSIZE..(off + tot) % BSIZE + m])
    {
      hide AddrAt, ByteAt;
      var o, c := off + tot, Contents(blocks, inodes[i]);
      forall p | o <= p < o + m ensures c[p] == blocks[addr][p - o + o % BSIZE] {
        SameBlock(o, p);
        ThisByte(blocks, inodes[i], p);
      }
      assert c[o..o + m] == blocks[addr][o % BSIZE..o % BSIZE + m];
      assert c[off..o + m] == c[off..o] + c[o..o + m];
    }

    /** bfree(): clear the block's bit; panic if it was clear. */
    method Bfree(b: int) returns (panic: bool)
      requires 0 <= b && BBlock(sb, b) in blocks && |blocks[BBlock(sb, b)]| == BSIZE
      modifies this`blocks, this`logged
      ensures panic <==> !Marked(sb, old(blocks), b)
      ensures panic ==> blocks == old(blocks) && logged == old(logged)
      ensures !panic ==> blocks == Mark(sb, old(blocks), b, false) && logged == old(logged) + {BBlock(sb, b)}
    {
      var m, bi := BBlock(sb, b), b % BPB;
      SameBit(b, b);
      assert bi % 8 == b % 8;
      if !BitSet(blocks[m][bi / 8], bi % 8) { return true; }
      blocks := blocks[m := blocks[m][bi / 8 := WithBit(blocks[m][bi / 8], bi % 8, false)]];
      logged := logged + {m};
      return false;
    }

    /** itrunc() has cleared direct slots below k and freed the blocks of indirect entries below slot hk. */
    ghost predicate Truncating(b0: Blocks, n0: Inodes, u0: Uses, l0: set<int>, i: int, k: int, hk: int)
      reads this
    {
      && InvBut(sb, blocks, inodes, use, i, hk) && i in inodes && |inodes[i].addrs| == 13 && i >= 0
      && SameFiles(b0, n0, blocks, inodes, i) && LogCovers(sb, b0, l0, blocks, logged, {})
      && inodes == n0[i := inodes[i]] && Dropping(u0, use, i) && forall k' | 0 <= k' < k && k' < 13 :: inodes[i].addrs[k'] == 0
    }

    /** Some blocks of inode i have become unused. */
    static ghost predicate Dropping(u0: Uses, u: Uses, i: int) {
      u.Keys == u0.Keys && forall b | b in u0 :: u[b] == u0[b] || (u0[b].Slot? && u0[b].inum == i && u[b] == Unused)
    }

    /** bfree(ip->addrs[k]) and ip->addrs[k] = 0: the panic is unreachable. */
    method DropAddr(i: int, k: int, ghost b0: Blocks, ghost n0: Inodes, ghost u0: Uses, ghost l0: set<int>)
      requires 0 <= k <= NDIRECT && Truncating(b0, n0, u0, l0, i, k, if k == NDIRECT then SLOTS else 13) && inodes[i].addrs[k] != 0
      modifies this`blocks, this`inodes, this`use, this`logged
      ensures Truncating(b0, n0, u0, l0, i, k + 1, 13) && inodes[i].addrs == old(inodes)[i].addrs[k := 0] && inodes.Keys == old(inodes.Keys)
    {
      hide InvBut, SameFiles, Mark, LogCovers, AddrAt, Marked;
      ghost var b1, n1, u1, l1 := blocks, inodes, use, logged;
      var b := inodes[i].addrs[k];
      AddrOwned(sb, blocks, inodes, use, i, k, if k == NDIRECT then SLOTS else 13);
      FreeAddrOk(sb, blocks, inodes, use, i, k);
      var panic;
      panic := Bfree(b);
      assert !panic;
      LogBit(b0, l0, b1, l1, b);
      inodes := inodes[i := inodes[i].(addrs := inodes[i].addrs[k := 0])];
      use := use[b := Unused];
      SameFilesTrans(b0, n0, b1, n1, blocks, inodes, i);
    }

    lemma LogBit(b0: Blocks, l0: set<int>, b1: Blocks, l1: set<int>, b: int)
      requires LogCovers(sb, b0, l0, b1, l1, {}) && LayoutOk(sb) && 0 <= b < sb.size
      requires BBlock(sb, b) in b1 && |b1[BBlock(sb, b)]| == BSIZE && blocks == Mark(sb, b1, b, false) && logged == l1 + {BBlock(sb, b)}
      ensures LogCovers(sb, b0, l0, blocks, logged, {})
    {
      BitmapBlock(sb, b);
      SameBit(b, b);
      hide InBitmap, WithBit;
    }

    /** if(a[j]) bfree(a[j]): the panic is unreachable. */
    method DropEntry(i: int, j: int, ghost b0: Blocks, ghost n0: Inodes, ghost u0: Uses, ghost l0: set<int>)
      requires 0 <= j < NINDIRECT && Truncating(b0, n0, u0, l0, i, NDIRECT, 13 + j) && inodes[i].addrs[NDIRECT] != 0
      modifies this`blocks, this`use, this`logged
      ensures Truncating(b0, n0, u0, l0, i, NDIRECT, 14 + j)
    {
      hide InvBut, SameFiles, Mark, LogCovers, AddrAt, Marked, Word, Bytes;
      ghost var b1, u1, l1 := blocks, use, logged;
      AddrOwned(sb, blocks, inodes, use, i, NDIRECT, 13 + j);
      EntryRead(i, j);
      FreeEntryOk(sb, blocks, inodes, use, i, j);
      var b := Word(blocks[inodes[i].addrs[NDIRECT]], j);
      if b != 0 {
        SlotThere(i, 13 + j, i, 13 + j);
        var panic;
        panic := Bfree(b);
        assert !panic;
        LogBit(b0, l0, b1, l1, b);
        use := use[b := Unused];
        SameFilesTrans(b0, n0, b1, inodes, blocks, inodes, i);
      }
    }

    lemma SlotThere(i: int, k: int, hi: int, hk: int)
      requires InvBut(sb, blocks, inodes, use, hi, hk) && IsSlot(inodes, i, k) && AddrAt(blocks, inodes[i], k) != 0 && !Stale(i, k, hi, hk)
      ensures 0 <= AddrAt(blocks, inodes[i], k) < sb.size
    {
      SlotOwned(sb, blocks, inodes, use, hi, hk, i, k);
    }

    lemma EntryRead(i: int, j: int)
      requires 0 <= j < NINDIRECT && InvBut(sb, blocks, inodes, use, i, 13 + j) && i in inodes && |inodes[i].addrs| == 13
      requires inodes[i].addrs[NDIRECT] != 0 && inodes[i].addrs[NDIRECT] in blocks
      ensures |blocks[inodes[i].addrs[NDIRECT]]| == BSIZE
      ensures AddrAt(blocks, inodes[i], 13 + j) == Word(blocks[inodes[i].addrs[NDIRECT]], j)
    {
      hide SlotsOk, BitsOk, FilesOk;
    }

    /** itrunc(): the file is empty, and exactly its blocks have become unused. */
    method ITrunc(i: int)
      requires Valid() && i in inodes
      modifies this`blocks, this`inodes, this`use, this`logged
      ensures Valid() && inodes == old(inodes)[i := Inode(seq(13, k => 0), 0)]
      ensures Dropped(old(use), use, i) && SameFiles(old(blocks), old(inodes), blocks, inodes, i)
      ensures i >= 0 && IBlock(sb, i) in logged && LogCovers(sb, old(blocks), old(logged), blocks, logged, {IBlock(sb, i)})
      ensures OnDisk(sb, blocks, i, inodes[i]) && (Synced(sb, old(blocks), old(inodes)) ==> Synced(sb, blocks, inodes))
      ensures NoLoose(old(use)) ==> NoLoose(use)
    {
      hide Inv, InvBut, SameFiles, LogCovers, AddrAt, Dropping, OnDisk;
      ghost var s0 := Now();
      ghost var b0, n0, u0, l0 := blocks, inodes, use, logged;
      TruncatingStarts(i);
      var k := 0;
      while k < NDIRECT
        invariant 0 <= k <= NDIRECT && Truncating(b0, n0, u0, l0, i, k, 13)
      {
        if inodes[i].addrs[k] != 0 {
          DropAddr(i, k, b0, n0, u0, l0);
        }
        k := k + 1;
      }
      if inodes[i].addrs[NDIRECT] != 0 {
        var j := 0;
        while j < NINDIRECT
          invariant 0 <= j <= NINDIRECT && Truncating(b0, n0, u0, l0, i, NDIRECT, 13 + j) && inodes[i].addrs[NDIRECT] != 0
        {
          DropEntry(i, j, b0, n0, u0, l0);
          j := j + 1;
        }
        DropAddr(i, NDIRECT, b0, n0, u0, l0);
      }
      Emptied(i, b0, n0, u0, l0);
      inodes := inodes[i := inodes[i].(size := 0)];
      ghost var s1 := Now();
      IUpdate(i);
      TruncLogged(s0, s1, i);
      TruncSync(s0, s1, i);
      NoMinusOne(sb, s1);
      SameFilesLess(s1.b, s1.n, blocks, inodes, i);
      SameFilesTrans(b0, n0, s1.b, s1.n, blocks, inodes, i);
    }

    lemma TruncLogged(s0: State, s1: State, i: int)
      requires Inv(sb, s1.b, s1.n, s1.u) && i in s1.n && LogCovers(sb, s0.b, s0.l, s1.b, s1.l, {}) && i >= 0
      requires IBlock(sb, i) in s1.b && IBlock(sb, i) in blocks && blocks == s1.b[IBlock(sb, i) := blocks[IBlock(sb, i)]]
      requires logged == s1.l + {IBlock(sb, i)}
      ensures LogCovers(sb, s0.b, s0.l, blocks, logged, {IBlock(sb, i)})
    {
      hide LogCovers, AddrAt, Inv;
      InodeFits(sb, s1.b, s1.n, s1.u, i);
      LogMore(sb, s0.b, s0.l, s1.b, s1.l, {}, {IBlock(sb, i)});
      LogOne(sb, s0.b, s0.l, s1.b, s1.l, IBlock(sb, i), blocks[IBlock(sb, i)], {IBlock(sb, i)});
    }

    lemma TruncSync(s0: State, s1: State, i: int)
      requires Inv(sb, s1.b, s1.n, s1.u) && i in s1.n && LogCovers(sb, s0.b, s0.l, s1.b, s1.l, {}) && s1.n == s0.n[i := s1.n[i]]
      requires inodes == s1.n && OnDisk(sb, blocks, i, inodes[i])
      requires forall j, ip | j != i && OnDisk(sb, s1.b, j, ip) :: OnDisk(sb, blocks, j, ip)
      ensures Synced(sb, s0.b, s0.n) ==> Synced(sb, blocks, inodes)
    {
      hide LogCovers, AddrAt, Inv, DInode;
      if Synced(sb, s0.b, s0.n) {
        forall j | j in inodes && j != i ensures OnDisk(sb, blocks, j, inodes[j]) {
          assert OnDisk(sb, s0.b, j, inodes[j]);
          InodeFits(sb, s1.b, s1.n, s1.u, j);
          InodesUndisturbed(sb, s0.b, s0.l, s1.b, s1.l, {}, j, inodes[j]);
        }
      }
    }

    lemma TruncatingStarts(i: int)
      requires Valid() && i in inodes
      ensures Truncating(blocks, inodes, use, logged, i, 0, 13)
    {
      hide AddrAt, Marked;
      SameFilesRefl(blocks, inodes, -1);
      SameFilesLess(blocks, inodes, blocks, inodes, i);
      assert SlotsOk(blocks, inodes, use, i, 13);
    }

    lemma Emptied(i: int, b0: Blocks, n0: Inodes, u0: Uses, l0: set<int>)
      requires Truncating(b0, n0, u0, l0, i, 13, 13)
      ensures Inv(sb, blocks, inodes[i := inodes[i].(size := 0)], use) && inodes[i].addrs == seq(13, k => 0)
      ensures SameFiles(b0, n0, blocks, inodes[i := inodes[i].(size := 0)], i) && Dropped(u0, use, i)
    {
      hide SameFile, Marked;
      SizeOk(sb, blocks, inodes, use, i, i, 0);
      SameFilesTrans(b0, n0, blocks, inodes, blocks, inodes[i := inodes[i].(size := 0)], i);
      BlockZero(sb, blocks, use);
      assert forall k | 0 <= k < SLOTS :: AddrAt(blocks, inodes[i], k) == 0;
    }
  }

  // ---------------------------------------------------------------- files as sequences

  /** The contents are overwritten with the bytes that count as written, if no more changed, or none within the size. */
  lemma WrittenContents(s0: State, s: State, i: int, off: int, data: seq<int>, ret: int, wr: int, k: int)
    requires WroteTo(s0, s, i, off, data, ret, wr, k) && off <= s0.n[i].size <= MAXFILE * BSIZE && off + |data| <= MAXFILE * BSIZE
    ensures s.n[i].size <= MAXFILE * BSIZE
    ensures wr == ret || s0.n[i].size <= off + ret ==> Contents(s.b, s.n[i]) == Overwrite(Contents(s0.b, s0.n[i]), off, data[..ret])
  {
    hide ByteAt;
    if wr == ret || s0.n[i].size <= off + ret {
      var c, d := Contents(s.b, s.n[i]), Overwrite(Contents(s0.b, s0.n[i]), off, data[..ret]);
      assert |c| == |d|;
      assert forall o | 0 <= o < |c| :: c[o] == d[o];
    }
  }

  /** The contents of the other files are the same. */
  lemma OtherContents(s0: State, s: State, i: int, j: int)
    requires SameFiles(s0.b, s0.n, s.b, s.n, i) && j in s0.n && j != i && 0 <= s0.n[j].size <= MAXFILE * BSIZE
    ensures |s0.n[j].addrs| == 13 && j in s.n && |s.n[j].addrs| == 13 && s.n[j].size == s0.n[j].size
    ensures Contents(s.b, s.n[j]) == Contents(s0.b, s0.n[j])
  {
    hide ByteAt;
    assert SameFile(s0.b, s0.n[j], s.b, s.n[j]);
  }

  // ---------------------------------------------------------------- a count of 0 that changes a file

  const MKFS: Super := Super(2000, 45, 32, 46)   // as mkfs lays the disk out

  /** The first write finds a block, since one is unused. */
  lemma FirstWrite(sb: Super, s0: State, s1: State, i: int, data: seq<int>, ret: int, wr: int, k: nat, free: int)
    requires Inv(sb, s1.b, s1.n, s1.u) && |data| == 2 && Stopped(s1, i, 0, 2, 2, ret, wr) && k <= 1
    requires WroteTo(s0, s1, i, 0, data, ret, wr, k) && free in s0.u && s0.u[free] == Unused && free != 0 && s0.n[i].size == 0
    ensures ret == wr == 2 && s1.n[i].size == 2
  {
    hide AddrAt, BitsOk, BlocksOk, FilesOk, ByteAt;
  }

  /** The second write finds the block mapped, and fails inside it. */
  lemma SecondWrite(sb: Super, s1: State, s2: State, i: int, data: seq<int>, ret: int, wr: int, k: nat)
    requires Inv(sb, s2.b, s2.n, s2.u) && |data| == 2 && Stopped(s2, i, 0, 2, 1, ret, wr)
    requires WroteTo(s1, s2, i, 0, data, ret, wr, k) && s1.n[i].size == 2
    ensures ret == 0 && wr == 1 && s2.n[i].size == 2
  {
    hide AddrAt, ByteAt, Marked;
    assert FileOk(s2.b, s2.n[i]);
    assert 0 * BSIZE < s2.n[i].size;
  }

  lemma BothWrites(s0: State, s1: State, s2: State, i: int, k1: nat, k2: nat, got: seq<int>)
    requires WroteTo(s0, s1, i, 0, [1, 2], 2, 2, k1) && WroteTo(s1, s2, i, 0, [7, 8], 0, 1, k2)
    requires s2.n[i].size == 2 && got == Contents(s2.b, s2.n[i])[0..2]
    ensures got == [7, 2]
  {
    hide ByteAt;
    assert got[0] == ByteAt(s2.b, s2.n[i], 0) && got[1] == ByteAt(s2.b, s2.n[i], 1);
  }

  /**
   * The file holds the bytes 1 and 2.  A write of 7 and 8 fails after its first byte: it returns 0,
   * and the file holds 7 and 2.
   */
  method FailedCopy() returns (first: int, ret: int, got: seq<int>)
    ensures first == 2 && ret == 0 && got == [7, 2]
  {
    hide AddrAt, ByteAt, MarkFirst, FreshUse, LogCovers, Touched, OnDisk, Synced, Contents, Inv, Stopped, WroteTo, KeptBut, NewIfLogged, CopyTot, Full,
         Lacking, RunsOut, Goal, NewLogged, CountedLogged, NoLoose;
    var inodes := map[1 := Inode(seq(13, k => 0), 0)];
    FreshInv(MKFS, inodes);
    var fs := new Disk(MKFS, MarkFirst(MKFS, MKFS.nmeta), inodes, FreshUse(MKFS.size, MKFS.nmeta));
    ghost var s0 := fs.Now();
    ghost var wr, kept, k1, k2;
    first, wr, kept, k1 := fs.WriteI(1, 0, [1, 2], 2);
    ghost var s1 := fs.Now();
    FirstWrite(MKFS, s0, s1, 1, [1, 2], first, wr, k1, 46);
    ret, wr, kept, k2 := fs.WriteI(1, 0, [7, 8], 1);
    ghost var s2 := fs.Now();
    SecondWrite(MKFS, s1, s2, 1, [7, 8], ret, wr, k2);
    var len;
    len, got := fs.ReadI(1, 0, 2, 2);
    BothWrites(s0, s1, s2, 1, k1, k2, got);
  }
}
