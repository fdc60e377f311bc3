/**
 * Group commit: any operations on any files, committed together by the log, with crashes anywhere.
 *
 * A writei() that fails to copy a whole chunk leaves bytes in the chunk's buffer that it neither
 * counts nor logs.  They are on their way to the disk all the same if that block is in the log
 * for another reason when the transaction commits.  A View keeps both: the files as the counts
 * say, and the uncounted bytes that bread() shows.
 */
module GroupCommit {
  import opened BlockOwnership
  import opened Counting
  import opened CrashSafety
  import opened FileSystem
  import opened Machine
  import opened Params
  import D = Blocks
  import L = LogCrash

  // ---------------------------------------------------------------- operations on files

  /** writei() of data of which `avail` bytes can be copied; itrunc(); bget() recycling the buffer of block bn of file i. */
  datatype Op = Write(i: int, off: int, data: seq<int>, avail: nat) | Trunc(i: int) | Recycle(i: int, bn: int)

  predicate OpOk(op: Op, n: Inodes) {
    && op.i in n && (op.Recycle? ==> 0 <= op.bn < MAXFILE)
    && (op.Write? ==> 0 <= op.off < U32 && |op.data| < U32 && forall j | 0 <= j < |op.data| :: 0 <= op.data[j] < 256)
  }

  /** A finished operation: what writei() returned, and how many bytes it copied; 1 if the buffer was recycled. */
  datatype Done = Done(op: Op, count: int, wr: int)

  /** Files as the counts say, and for each file the uncounted bytes in its buffers, by offset. */
  datatype View = View(files: map<int, seq<int>>, extra: map<int, map<int, int>>)

  ghost function Applied(files: map<int, seq<int>>, d: Done): map<int, seq<int>> {
    if d.op.i !in files then files else
    match d.op
    case Trunc(i) => files[i := []]
    case Recycle(_, _) => files
    case Write(i, off, data, _) =>
      if 0 <= d.count <= |data| && 0 <= off <= |files[i]| then files[i := Overwrite(files[i], off, data[..d.count])] else files
  }

  /** A write removes the uncounted bytes that it overwrites, and adds those of a failed copy. */
  ghost function LeftIn(extra: map<int, int>, off: int, data: seq<int>, count: int, wr: int): map<int, int>
    requires 0 <= count <= wr <= |data|
  {
    var lost := Range(off + count, wr - count);
    (map o | o in extra && !(off <= o < off + wr) :: extra[o]) + (map o | o in lost :: data[o - off])
  }

  ghost function Left(extra: map<int, map<int, int>>, d: Done): map<int, map<int, int>> {
    if d.op.i !in extra then extra else
    match d.op
    case Trunc(i) => extra[i := map[]]
    case Recycle(i, bn) => if d.count == 1 then extra[i := map o | o in extra[i] && o / BSIZE != bn :: extra[i][o]] else extra
    case Write(i, off, data, _) => if 0 <= d.count <= d.wr <= |data| then extra[i := LeftIn(extra[i], off, data, d.count, d.wr)] else extra
  }

  ghost function Next(v: View, d: Done): View { View(Applied(v.files, d), Left(v.extra, d)) }

  ghost function AppliedAll(v: View, h: seq<Done>): View {
    if h == [] then v else Next(AppliedAll(v, h[..|h| - 1]), h[|h| - 1])
  }

  /** -1 exactly for a write that starts beyond the end or is too long; more copied than counted only if a copy fails. */
  ghost predicate DoneOk(files: map<int, seq<int>>, d: Done) {
    d.op.Write? && d.op.i in files ==>
      && (d.count == -1 <==> d.op.off > |files[d.op.i]| || d.op.off + |d.op.data| > MAXFILE * BSIZE)
      && (d.count != -1 ==> 0 <= d.count <= d.wr <= |d.op.data|)
      && (d.count != -1 && d.wr != d.count ==> d.wr == d.op.avail < |d.op.data| && d.count == Goal(d.op.off, |d.op.data|, d.op.avail))
  }

  // ---------------------------------------------------------------- buffers, disk and files

  /** A block whose buffer may differ from the disk without being in the log: unused, or with data. */
  ghost predicate Volatile(sb: Super, u: Uses, x: int) {
    x in u && sb.nmeta <= x && (u[x] == Unused || (u[x].Slot? && u[x].k != NDIRECT))
  }

  ghost predicate Apart(sb: Super, home: Blocks, s: State) {
    && home.Keys == s.b.Keys && AllBytes(home)
    && forall x | x in s.b && x !in s.l && home[x] != s.b[x] :: Volatile(sb, s.u, x)
  }

  /** bread() shows the uncounted byte if there is one; if the block is not in the log, the disk has the counted one. */
  ghost predicate ByteShown(home: Blocks, s: State, j: int, o: int, file: seq<int>, extra: map<int, int>)
    requires j in s.n && |s.n[j].addrs| == 13 && 0 <= o < |file| <= MAXFILE * BSIZE
  {
    var x := AddrAt(s.b, s.n[j], SlotOf(o / BSIZE));
    && ByteAt(s.b, s.n[j], o) == (if o in extra then extra[o] else file[o])
    && (x !in s.l ==> x in home && |home[x]| == BSIZE && file[o] == home[x][o % BSIZE])
  }

  ghost predicate FileShown(home: Blocks, s: State, j: int, file: seq<int>, extra: map<int, int>) {
    && j in s.n && |s.n[j].addrs| == 13 && |file| == s.n[j].size <= MAXFILE * BSIZE
    && forall o | 0 <= o < |file| :: ByteShown(home, s, j, o, file, extra)
  }

  /** With `home` on the disk and s in memory, v says what the files are. */
  ghost predicate Reflects(sb: Super, home: Blocks, s: State, v: View) {
    && Mounted(sb, s) && Apart(sb, home, s) && v.files.Keys == s.n.Keys && v.extra.Keys == s.n.Keys
    && forall j | j in s.n :: FileShown(home, s, j, v.files[j], v.extra[j])
  }

  /** Byte o of file j is in a block that is in the log. */
  ghost predicate InLog(s: State, j: int, o: int) {
    j in s.n && |s.n[j].addrs| == 13 && 0 <= o < MAXFILE * BSIZE && AddrAt(s.b, s.n[j], SlotOf(o / BSIZE)) in s.l
  }

  /** A file as the commit of s will leave it. */
  ghost function StainedFile(s: State, j: int, file: seq<int>, extra: map<int, int>): seq<int> {
    seq(|file|, o requires 0 <= o < |file| => if o in extra && InLog(s, j, o) then extra[o] else file[o])
  }

  ghost function Stained(s: State, v: View): map<int, seq<int>>
    requires v.extra.Keys == v.files.Keys
  {
    map j | j in v.files :: StainedFile(s, j, v.files[j], v.extra[j])
  }

  /** No uncounted byte below a file's size, in a block that is in the log, differs from the counted one. */
  ghost predicate Clean(s: State, v: View)
    requires v.extra.Keys == v.files.Keys
  {
    forall j, o | j in v.files && o in v.extra[j] && 0 <= o < |v.files[j]| && InLog(s, j, o) :: v.extra[j][o] == v.files[j][o]
  }

  lemma CleanIff(s: State, v: View)
    requires v.extra.Keys == v.files.Keys
    ensures Clean(s, v) <==> Stained(s, v) == v.files
  {
    hide InLog;
    if Clean(s, v) {
      forall j | j in v.files ensures StainedFile(s, j, v.files[j], v.extra[j]) == v.files[j] { }
    } else {
      var j, o :| j in v.files && o in v.extra[j] && 0 <= o < |v.files[j]| && InLog(s, j, o) && v.extra[j][o] != v.files[j][o];
      assert Stained(s, v)[j][o] != v.files[j][o];
    }
  }

  // ---------------------------------------------------------------- what the disk will hold

  /** Blocks that differ in volatile blocks only make the same file system, with other bytes. */
  lemma Moved(sb: Super, s: State, b: Blocks)
    requires Mounted(sb, s) && b.Keys == s.b.Keys && AllBytes(b) && forall x | x in s.b && b[x] != s.b[x] :: Volatile(sb, s.u, x)
    ensures Mounted(sb, s.(b := b)) && forall j, k | IsSlot(s.n, j, k) :: AddrAt(b, s.n[j], k) == AddrAt(s.b, s.n[j], k)
  {
    hide AddrAt, Marked, SlotsOk, FilesOk, Bytes, OnDisk;
    assert Keeps(s.b, b, s.u, false) by { SlotBlocks(sb, s); }
    SlotsFrame(s.b, b, s.n, s.u, -1, 0);
    forall j, k | IsSlot(s.n, j, k) ensures AddrAt(b, s.n[j], k) == AddrAt(s.b, s.n[j], k) {
      AddrFrame(s.b, b, s.n, s.u, -1, 0, j, k);
    }
    forall x | x in s.u && 0 <= x ensures Marked(sb, b, x) <==> s.u[x] != Unused {
      BBlockOk(sb, x);
      SameMark(sb, s.b, b, x);
    }
    forall j | j in s.n ensures OnDisk(sb, b, j, s.n[j]) {
      InodeFits(sb, s.b, s.n, s.u, j);
      SameInodeBlock(sb, s.b, b, j, s.n[j]);
    }
  }

  lemma SlotBlocks(sb: Super, s: State)
    requires Inv(sb, s.b, s.n, s.u)
    ensures forall x | x in s.u && s.u[x].Slot? :: x in s.b
  {
    hide AddrAt, Marked, SlotsOk, FilesOk;
  }

  lemma DurableApart(sb: Super, home: Blocks, s: State)
    requires Mounted(sb, s) && Apart(sb, home, s)
    ensures Mounted(sb, s.(b := Durable(home, s.b, s.l))) && AllBytes(Durable(home, s.b, s.l))
    ensures forall j, k | IsSlot(s.n, j, k) :: AddrAt(Durable(home, s.b, s.l), s.n[j], k) == AddrAt(s.b, s.n[j], k)
  {
    hide Inv, Synced, AddrAt, Bytes, Volatile;
    InvBytes(sb, s);
    Moved(sb, s, Durable(home, s.b, s.l));
  }

  /** What the commit leaves on the disk: the files with their stains. */
  lemma DurableFiles(sb: Super, home: Blocks, s: State, v: View)
    requires Reflects(sb, home, s, v)
    ensures var s' := s.(b := Durable(home, s.b, s.l)); Mounted(sb, s') && Files(s') == Stained(s, v)
  {
    hide Inv, Synced, AddrAt, ByteAt, Bytes, Volatile, FileOf, FileShown;
    DurableApart(sb, home, s);
    var s' := s.(b := Durable(home, s.b, s.l));
    forall j | j in s.n ensures FileOf(s', j) == StainedFile(s, j, v.files[j], v.extra[j]) {
      DurableFile(sb, home, s, j, v.files[j], v.extra[j]);
    }
  }

  lemma DurableFile(sb: Super, home: Blocks, s: State, j: int, file: seq<int>, extra: map<int, int>)
    requires Inv(sb, s.b, s.n, s.u) && FileShown(home, s, j, file, extra) && home.Keys == s.b.Keys && AllBytes(home)
    requires forall k | IsSlot(s.n, j, k) :: AddrAt(Durable(home, s.b, s.l), s.n[j], k) == AddrAt(s.b, s.n[j], k)
    ensures FileOf(s.(b := Durable(home, s.b, s.l)), j) == StainedFile(s, j, file, extra)
  {
    hide Inv, AddrAt, Durable, InLog, ByteShown, ByteAt;
    var d := Durable(home, s.b, s.l);
    forall o | 0 <= o < |file| ensures ByteAt(d, s.n[j], o) == StainedFile(s, j, file, extra)[o] {
      assert IsSlot(s.n, j, SlotOf(o / BSIZE));
      DurableByte(sb, home, s, j, o, file, extra);
    }
  }

  lemma DurableByte(sb: Super, home: Blocks, s: State, j: int, o: int, file: seq<int>, extra: map<int, int>)
    requires Inv(sb, s.b, s.n, s.u) && FileShown(home, s, j, file, extra) && home.Keys == s.b.Keys && AllBytes(home) && 0 <= o < |file|
    requires AddrAt(Durable(home, s.b, s.l), s.n[j], SlotOf(o / BSIZE)) == AddrAt(s.b, s.n[j], SlotOf(o / BSIZE))
    ensures ByteAt(Durable(home, s.b, s.l), s.n[j], o) == StainedFile(s, j, file, extra)[o]
  {
    hide AddrAt, BitsOk, SlotsOk;
    var x := AddrAt(s.b, s.n[j], SlotOf(o / BSIZE));
    assert ByteShown(home, s, j, o, file, extra);
    MappedByte(sb, s, j, o);
    BytesSize(home[x]);
  }

  /** A byte below the size is in a block of the file. */
  lemma MappedByte(sb: Super, s: State, j: int, o: int)
    requires Inv(sb, s.b, s.n, s.u) && j in s.n && |s.n[j].addrs| == 13 && 0 <= o < s.n[j].size <= MAXFILE * BSIZE
    ensures var x := AddrAt(s.b, s.n[j], SlotOf(o / BSIZE));
            x != 0 && x in s.b && |s.b[x]| == BSIZE && x in s.u && s.u[x] == Slot(j, SlotOf(o / BSIZE)) && sb.nmeta <= x
  {
    hide AddrAt, BitsOk, Marked;
    assert FileOk(s.b, s.n[j]);
    assert o / BSIZE * BSIZE < s.n[j].size;
    assert IsSlot(s.n, j, SlotOf(o / BSIZE));
    SlotOwned(sb, s.b, s.n, s.u, -1, 0, j, SlotOf(o / BSIZE));
    BytesSize(s.b[AddrAt(s.b, s.n[j], SlotOf(o / BSIZE))]);
  }

  // ---------------------------------------------------------------- one operation

  /** A file that no operation touched. */
  lemma StillShown(sb: Super, home: Blocks, s1: State, s: State, j: int, file: seq<int>, extra: map<int, int>)
    requires Inv(sb, s1.b, s1.n, s1.u) && Inv(sb, s.b, s.n, s.u) && FileShown(home, s1, j, file, extra) && j in s.n && s1.l <= s.l
    requires SameFile(s1.b, s1.n[j], s.b, s.n[j]) && forall x | x in s1.u && s1.u[x].Slot? && s1.u[x].inum == j :: x in s.u && s.u[x] == s1.u[x]
    ensures FileShown(home, s, j, file, extra)
  {
    hide AddrAt, Inv, ByteAt;
    forall o | 0 <= o < |file| ensures ByteShown(home, s, j, o, file, extra) {
      assert ByteShown(home, s1, j, o, file, extra);
      SameAddr(sb, s1, s, j, o);
    }
  }

  lemma SameAddr(sb: Super, s1: State, s: State, j: int, o: int)
    requires Inv(sb, s1.b, s1.n, s1.u) && Inv(sb, s.b, s.n, s.u) && j in s1.n && j in s.n && |s1.n[j].addrs| == 13 && |s.n[j].addrs| == 13
    requires 0 <= o < s1.n[j].size <= MAXFILE * BSIZE && forall x | x in s1.u && s1.u[x].Slot? && s1.u[x].inum == j :: x in s.u && s.u[x] == s1.u[x]
    ensures AddrAt(s.b, s.n[j], SlotOf(o / BSIZE)) == AddrAt(s1.b, s1.n[j], SlotOf(o / BSIZE))
  {
    hide AddrAt, BitsOk, BlocksOk, FilesOk, Marked;
    MappedByte(sb, s1, j, o);
  }

  /** The file that writei() wrote to. */
  lemma WrittenShown(sb: Super, home: Blocks, s1: State, s: State, i: int, off: int, data: seq<int>, ret: int, wr: int, k: int,
                     file: seq<int>, extra: map<int, int>)
    requires Inv(sb, s1.b, s1.n, s1.u) && Inv(sb, s.b, s.n, s.u) && FileShown(home, s1, i, file, extra) && s1.l <= s.l
    requires WroteTo(s1, s, i, off, data, ret, wr, k) && CountedLogged(s, i, off, ret) && off <= |file| && off + |data| <= MAXFILE * BSIZE
    ensures FileShown(home, s, i, Overwrite(file, off, data[..ret]), LeftIn(extra, off, data, ret, wr))
  {
    hide AddrAt, Inv, ByteAt, SameFiles;
    var file', extra' := Overwrite(file, off, data[..ret]), LeftIn(extra, off, data, ret, wr);
    forall o | 0 <= o < |file'| ensures ByteShown(home, s, i, o, file', extra') {
      if off <= o < off + ret {
        assert AddrAt(s.b, s.n[i], SlotOf(o / BSIZE)) in s.l;
      } else {
        assert ByteShown(home, s1, i, o, file, extra);
        SameAddr(sb, s1, s, i, o);
      }
    }
  }

  lemma WriteApart(sb: Super, home: Blocks, s1: State, s: State, kept: Blocks, i: int, off: int, data: seq<int>, ret: int, wr: int, k: int, t: set<int>)
    requires Apart(sb, home, s1) && Inv(sb, s.b, s.n, s.u) && WroteTo(s1, s, i, off, data, ret, wr, k) && NewLogged(s1.u, s.u, s.l)
    requires LogCovers(sb, s1.b, s1.l, kept, s.l, t) && KeptBut(sb, s, i, off, ret, wr, kept)
    ensures Apart(sb, home, s)
  {
    hide AddrAt, ByteAt, InBitmap, SameFiles, Bytes, Inv;
    if wr != ret { LostBlock(sb, s, i, (off + ret) / BSIZE); }
    assert s.b.Keys == kept.Keys == s1.b.Keys;
    forall x | x in s.b && x !in s.l && home[x] != s.b[x] ensures Volatile(sb, s.u, x) {
      if s.b[x] == kept[x] { assert kept[x] == s1.b[x]; }
    }
  }

  lemma LostBlock(sb: Super, s: State, i: int, bn: int)
    requires Inv(sb, s.b, s.n, s.u) && i in s.n && |s.n[i].addrs| == 13 && 0 <= bn < MAXFILE
    requires sb.nmeta <= AddrAt(s.b, s.n[i], SlotOf(bn))
    ensures Volatile(sb, s.u, AddrAt(s.b, s.n[i], SlotOf(bn)))
  {
    hide AddrAt, BitsOk, BlocksOk, FilesOk, Marked;
    assert IsSlot(s.n, i, SlotOf(bn));
  }

  lemma WriteReflects(sb: Super, home: Blocks, s1: State, s: State, kept: Blocks, d: Done, k: int, t: set<int>, v: View)
    requires Reflects(sb, home, s1, v) && Mounted(sb, s) && d.op.Write? && d.op.off + |d.op.data| <= MAXFILE * BSIZE
    requires WroteTo(s1, s, d.op.i, d.op.off, d.op.data, d.count, d.wr, k) && NewLogged(s1.u, s.u, s.l) && CountedLogged(s, d.op.i, d.op.off, d.count)
    requires LogCovers(sb, s1.b, s1.l, kept, s.l, t) && KeptBut(sb, s, d.op.i, d.op.off, d.count, d.wr, kept) && d.op.off <= s1.n[d.op.i].size
    ensures Reflects(sb, home, s, Next(v, d))
  {
    hide AddrAt, ByteAt, Inv, Synced, LogCovers, NewLogged, CountedLogged, KeptBut, Apart, FileShown, SameFile, Overwrite, LeftIn;
    var i := d.op.i;
    WriteApart(sb, home, s1, s, kept, i, d.op.off, d.op.data, d.count, d.wr, k, t);
    LogGrows(sb, s1, s, kept, t);
    ShownSize(home, s1, i, v.files[i], v.extra[i]);
    WrittenShown(sb, home, s1, s, i, d.op.off, d.op.data, d.count, d.wr, k, v.files[i], v.extra[i]);
    forall j | j in s.n && j != i ensures FileShown(home, s, j, v.files[j], v.extra[j]) {
      StillShown(sb, home, s1, s, j, v.files[j], v.extra[j]);
    }
    var v' := Next(v, d);
    assert v'.files.Keys == s.n.Keys && v'.extra.Keys == s.n.Keys;
  }

  lemma LogGrows(sb: Super, s1: State, s: State, b: Blocks, t: set<int>)
    requires LogCovers(sb, s1.b, s1.l, b, s.l, t)
    ensures s1.l <= s.l
  {
  }

  lemma ShownSize(home: Blocks, s: State, j: int, file: seq<int>, extra: map<int, int>)
    requires FileShown(home, s, j, file, extra)
    ensures j in s.n && |s.n[j].addrs| == 13 && |file| == s.n[j].size <= MAXFILE * BSIZE
  {
  }

  lemma TruncReflects(sb: Super, home: Blocks, s1: State, s: State, i: int, t: set<int>, v: View)
    requires Reflects(sb, home, s1, v) && Mounted(sb, s) && i in s1.n && s.n == s1.n[i := Inode(seq(13, k => 0), 0)]
    requires Dropped(s1.u, s.u, i) && SameFiles(s1.b, s1.n, s.b, s.n, i) && LogCovers(sb, s1.b, s1.l, s.b, s.l, t)
    ensures Reflects(sb, home, s, Next(v, Done(Trunc(i), 0, 0)))
  {
    hide AddrAt, ByteAt, Inv, Synced, InBitmap, FileShown, SameFile, Bytes;
    assert FileShown(home, s, i, [], map[]) by { EmptyShown(home, s, i); }
    forall j | j in s.n && j != i ensures FileShown(home, s, j, v.files[j], v.extra[j]) {
      StillShown(sb, home, s1, s, j, v.files[j], v.extra[j]);
    }
    assert Apart(sb, home, s);
    var v' := Next(v, Done(Trunc(i), 0, 0));
    assert v'.files.Keys == s.n.Keys && v'.extra.Keys == s.n.Keys;
  }

  lemma EmptyShown(home: Blocks, s: State, i: int)
    requires i in s.n && |s.n[i].addrs| == 13 && s.n[i].size == 0
    ensures FileShown(home, s, i, [], map[])
  {
  }

  /** The buffer of block bn of file i is read back from the disk. */
  lemma RecycleReflects(sb: Super, home: Blocks, s1: State, s: State, i: int, bn: int, x: int, v: View)
    requires i in s1.n && |s1.n[i].addrs| == 13 && 0 <= bn < MAXFILE && x == AddrAt(s1.b, s1.n[i], SlotOf(bn)) && x != 0
    requires x !in s1.l && x in home && s == s1.(b := s1.b[x := home[x]]) && Reflects(sb, home, s1, v)
    ensures Reflects(sb, home, s, Next(v, Done(Recycle(i, bn), 1, 0)))
  {
    hide AddrAt, ByteAt, Inv, Synced, FileShown, SameFile, Bytes, Volatile;
    WriteOk(sb, s1.b, s1.n, s1.u, i, bn, home[x]);
    RecycledBlock(sb, s1, i, bn);
    InvBytes(sb, s1);
    BytesSize(home[x]);
    Moved(sb, s1, s.b);
    RecycledShown(sb, home, s1, s, i, bn, v.files[i], v.extra[i]);
    forall j | j in s.n && j != i ensures FileShown(home, s, j, v.files[j], v.extra[j]) {
      StillShown(sb, home, s1, s, j, v.files[j], v.extra[j]);
    }
    var v' := Next(v, Done(Recycle(i, bn), 1, 0));
    assert v'.files.Keys == s.n.Keys && v'.extra.Keys == s.n.Keys;
  }

  lemma RecycledBlock(sb: Super, s: State, i: int, bn: int)
    requires Inv(sb, s.b, s.n, s.u) && i in s.n && |s.n[i].addrs| == 13 && 0 <= bn < MAXFILE && AddrAt(s.b, s.n[i], SlotOf(bn)) != 0
    ensures var x := AddrAt(s.b, s.n[i], SlotOf(bn)); Volatile(sb, s.u, x) && x in s.b
  {
    hide AddrAt, Marked;
    assert IsSlot(s.n, i, SlotOf(bn));
    SlotOwned(sb, s.b, s.n, s.u, -1, 0, i, SlotOf(bn));
  }

  lemma RecycledShown(sb: Super, home: Blocks, s1: State, s: State, i: int, bn: int, file: seq<int>, extra: map<int, int>)
    requires Inv(sb, s1.b, s1.n, s1.u) && FileShown(home, s1, i, file, extra) && |s1.n[i].addrs| == 13 && 0 <= bn < MAXFILE
    requires s.n == s1.n && s.l == s1.l
    requires var x := AddrAt(s1.b, s1.n[i], SlotOf(bn));
             && x !in s1.l && x in home && |home[x]| == BSIZE && (forall k | 0 <= k < SLOTS :: AddrAt(s.b, s1.n[i], k) == AddrAt(s1.b, s1.n[i], k))
             && forall o | 0 <= o < MAXFILE * BSIZE :: ByteAt(s.b, s1.n[i], o) == if o / BSIZE == bn then home[x][o % BSIZE] else ByteAt(s1.b, s1.n[i], o)
    ensures FileShown(home, s, i, file, map o | o in extra && o / BSIZE != bn :: extra[o])
  {
    hide AddrAt, ByteAt, Inv;
    var extra' := map o | o in extra && o / BSIZE != bn :: extra[o];
    forall o | 0 <= o < |file| ensures ByteShown(home, s, i, o, file, extra') {
      assert ByteShown(home, s1, i, o, file, extra);
    }
  }

  /** Block bn of file i is mapped, and not pinned by the log. */
  ghost predicate Recyclable(s: State, i: int, bn: int) {
    && i in s.n && |s.n[i].addrs| == 13 && 0 <= bn < MAXFILE
    && var x := AddrAt(s.b, s.n[i], SlotOf(bn)); x != 0 && x !in s.l
  }

  /** One operation inside a transaction. */
  method Perform(fs: Disk, home: Blocks, op: Op, ghost v: View) returns (count: int, ghost d: Done)
    requires Reflects(fs.sb, home, fs.Now(), v) && OpOk(op, fs.inodes)
    modifies fs`blocks, fs`inodes, fs`use, fs`logged
    ensures d.op == op && d.count == count && DoneOk(v.files, d)
    ensures Reflects(fs.sb, home, fs.Now(), Next(v, d)) && fs.inodes.Keys == old(fs.inodes.Keys) && old(fs.logged) <= fs.logged
    ensures op.Write? && count != -1 ==>
              if Lacking(old(fs.Now()), op.i, op.off, |op.data|, op.avail) then count < |op.data| && d.wr == count
              else count == Goal(op.off, |op.data|, op.avail) && d.wr == if op.avail < |op.data| then op.avail else count
    ensures op.Write? && count != -1 ==> CountedLogged(fs.Now(), op.i, op.off, count)
    ensures op.Recycle? ==> count == if Recyclable(old(fs.Now()), op.i, op.bn) then 1 else 0
  {
    hide Inv, AddrAt, LogCovers, Touched, Full, WroteTo, OnDisk, Stopped, KeptBut, NewIfLogged, CopyTot, Synced, Reflects, SameFiles,
         Lacking, RunsOut, Goal, NewLogged, CountedLogged, NoLoose, Next, DoneOk;
    ghost var s1 := fs.Now();
    ReflectsFacts(fs.sb, home, s1, v);
    fs.InodesFacts(op.i);
    match op
    case Write(i, off, data, avail) =>
      ghost var wr, kept, k;
      count, wr, kept, k := fs.WriteI(i, off, data, avail);
      d := Done(op, count, wr);
      if count == -1 {
        NotWritten(v, d);
      } else {
        ghost var t := Touched(kept, fs.inodes[i], off / BSIZE, k) + {IBlock(fs.sb, i)};
        WriteReflects(fs.sb, home, s1, fs.Now(), kept, d, k, t, v);
        LogGrows(fs.sb, s1, fs.Now(), kept, t);
        WriteDone(s1, fs.Now(), d, k);
      }
      CountedOk(v, s1, d);
    case Trunc(i) =>
      fs.ITrunc(i);
      count, d := 0, Done(op, 0, 0);
      TruncReflects(fs.sb, home, s1, fs.Now(), i, {IBlock(fs.sb, i)}, v);
      LogGrows(fs.sb, s1, fs.Now(), fs.blocks, {IBlock(fs.sb, i)});
      NoCount(v, d);
    case Recycle(i, bn) =>
      var x := AddrAt(fs.blocks, fs.inodes[i], SlotOf(bn));
      if x == 0 || x in fs.logged {
        count, d := 0, Done(op, 0, 0);
        NotWritten(v, d);
      } else {
        RecycledBlock(fs.sb, s1, i, bn);
        fs.Recycle(x, home);
        count, d := 1, Done(op, 1, 0);
        RecycleReflects(fs.sb, home, s1, fs.Now(), i, bn, x, v);
      }
      NoCount(v, d);
  }

  lemma ReflectsFacts(sb: Super, home: Blocks, s: State, v: View)
    requires Reflects(sb, home, s, v)
    ensures Inv(sb, s.b, s.n, s.u) && Synced(sb, s.b, s.n) && home.Keys == s.b.Keys && AllBytes(home)
    ensures v.files.Keys == s.n.Keys && v.extra.Keys == s.n.Keys
    ensures forall j | j in s.n :: |v.files[j]| == s.n[j].size <= MAXFILE * BSIZE && |s.n[j].addrs| == 13
  {
    hide Inv, Synced, ByteShown, Volatile, Bytes;
    forall j | j in s.n ensures |v.files[j]| == s.n[j].size <= MAXFILE * BSIZE && |s.n[j].addrs| == 13 {
      assert FileShown(home, s, j, v.files[j], v.extra[j]);
    }
  }

  lemma NotWritten(v: View, d: Done)
    requires (d.op.Write? && d.count == -1) || (d.op.Recycle? && d.count == 0)
    ensures Next(v, d) == v
  {
  }

  lemma NoCount(v: View, d: Done)
    requires !d.op.Write?
    ensures DoneOk(v.files, d)
  {
  }

  lemma WriteDone(s1: State, s: State, d: Done, k: int)
    requires d.op.Write? && WroteTo(s1, s, d.op.i, d.op.off, d.op.data, d.count, d.wr, k)
    ensures 0 <= d.count <= d.wr <= |d.op.data| && s.n.Keys == s1.n.Keys && 0 <= d.op.off
  {
    hide ByteAt;
  }

  lemma CountedOk(v: View, s1: State, d: Done)
    requires d.op.Write? && d.op.i in s1.n && (d.op.i in v.files ==> |v.files[d.op.i]| == s1.n[d.op.i].size)
    requires d.count == -1 <==> d.op.off > s1.n[d.op.i].size || d.op.off + |d.op.data| > MAXFILE * BSIZE
    requires d.count != -1 ==> 0 <= d.count <= d.wr <= |d.op.data|
    requires d.count != -1 && d.wr != d.count ==> d.wr == d.op.avail < |d.op.data| && d.count == Goal(d.op.off, |d.op.data|, d.op.avail)
    ensures DoneOk(v.files, d)
  {
    hide Goal;
  }

  // ---------------------------------------------------------------- a crash anywhere

  /** Two sets of files that one disk holds are the same. */
  lemma HoldsOne(sb: Super, after: Blocks, f: map<int, seq<int>>, g: map<int, seq<int>>)
    requires Holds(sb, after, f) && Holds(sb, after, g) && f.Keys == g.Keys
    ensures f == g
  {
    hide DInode, Contents;
    forall j | j in f ensures f[j] == g[j] { assert HasFile(sb, after, j, f[j]) && HasFile(sb, after, j, g[j]); }
  }

  /**
   * Before the commit point the disk holds the files as they were before the transaction.  Past it,
   * the files with their stains: what the counts say if and only if no stain is left.
   */
  ghost predicate CrashOutcome(sb: Super, s: State, v0: View, v: View, past: bool, after: Blocks) {
    && v.extra.Keys == v.files.Keys
    && if past then Holds(sb, after, Stained(s, v)) && (Holds(sb, after, v.files) <==> Clean(s, v)) else Holds(sb, after, v0.files)
  }

  /** With nothing in the log, the disk holds what the view says. */
  lemma HomeFiles(sb: Super, home: Blocks, s: State, v: View)
    requires Reflects(sb, home, s, v) && s.l == {}
    ensures Mounted(sb, s.(b := home)) && Files(s.(b := home)) == v.files && Holds(sb, home, v.files)
  {
    hide Inv, Synced, AddrAt, ByteAt, FileShown, Volatile, Bytes, Mounted;
    DurableFiles(sb, home, s, v);
    CleanIff(s, v);
    assert Durable(home, s.b, s.l) == home;
    FoundSelf(sb, s.(b := home));
  }

  lemma FoundSelf(sb: Super, s: State)
    requires Mounted(sb, s)
    ensures Holds(sb, s.b, Files(s))
  {
    hide Inv, Synced, Holds, Files;
    SameFilesSelf(sb, s);
    FoundFiles(sb, s.b, s);
  }

  lemma SameFilesSelf(sb: Super, s: State)
    requires Inv(sb, s.b, s.n, s.u)
    ensures SameFiles(s.b, s.n, s.b, s.n, -1)
  {
    hide AddrAt, ByteAt, Marked;
    SameFilesRefl(s.b, s.n, -1);
  }

  lemma CommitOutcome(sb: Super, r: L.Region, d: D.Disk, home: Blocks, s0: State, s: State, v0: View, v: View,
                      lh: seq<int>, cut: nat, js: seq<nat>, after: Blocks)
    requires Fits(sb, r) && Shows(r, d, home) && s0.l == {} && Reflects(sb, home, s0, v0) && Reflects(sb, home, s, v)
    requires Lists(lh, s.l) && CrashedTo(r, d, s.b, lh, cut, js, after)
    ensures CrashOutcome(sb, s, v0, v, L.PastCommitPoint(lh, cut), after)
  {
    hide Reflects, Mounted, Shows, Fits, CrashedTo, Holds, Lists, AllBytes, Durable, Finds, Files, Inv, Synced, Clean, Stained, L.PastCommitPoint;
    ReflectsFacts(sb, home, s, v);
    InvBytes(sb, s);
    HomeFiles(sb, home, s0, v0);
    DurableFiles(sb, home, s, v);
    TransactionAtomic(sb, r, d, s0.(b := home), s, lh, cut, js, after);
    FoundFiles(sb, after, if L.PastCommitPoint(lh, cut) then s.(b := Durable(home, s.b, s.l)) else s0.(b := home));
    if L.PastCommitPoint(lh, cut) {
      CleanIff(s, v);
      StainedKeys(s, v);
      if Holds(sb, after, v.files) { HoldsOne(sb, after, v.files, Stained(s, v)); }
    }
  }

  lemma StainedKeys(s: State, v: View)
    requires v.extra.Keys == v.files.Keys
    ensures Stained(s, v).Keys == v.files.Keys
  {
  }

  /**
   * Group commit: any operations on any files, from any buffers that reflect the disk, committed
   * together and cut anywhere.
   */
  method CrashingGroup(fs: Disk, home: Blocks, r: L.Region, ghost d: D.Disk, ops: seq<Op>, ghost v0: View) returns (counts: seq<int>, ghost done: seq<Done>)
    requires Reflects(fs.sb, home, fs.Now(), v0) && fs.logged == {}
    requires Fits(fs.sb, r) && Shows(r, d, home) && forall k | 0 <= k < |ops| :: OpOk(ops[k], fs.inodes)
    modifies fs`blocks, fs`inodes, fs`use, fs`logged
    ensures |counts| == |done| == |ops| && forall k | 0 <= k < |ops| :: Step(v0, done, k, ops[k], counts[k])
    ensures Reflects(fs.sb, home, fs.Now(), AppliedAll(v0, done))
    ensures forall lh, cut, js, after | Lists(lh, fs.logged) && CrashedTo(r, d, fs.blocks, lh, cut, js, after) ::
              CrashOutcome(fs.sb, fs.Now(), v0, AppliedAll(v0, done), L.PastCommitPoint(lh, cut), after)
  {
    hide Reflects, Lacking, Shows, Fits, CrashedTo, CrashOutcome, Lists, Next, DoneOk, Goal, CountedLogged, L.PastCommitPoint;
    ghost var s0 := fs.Now();
    counts, done := [], [];
    while |counts| < |ops|
      invariant |counts| == |done| <= |ops| && fs.inodes.Keys == s0.n.Keys && Reflects(fs.sb, home, fs.Now(), AppliedAll(v0, done))
      invariant forall k | 0 <= k < |counts| :: Step(v0, done, k, ops[k], counts[k])
      decreases |ops| - |counts|
    {
      var c; ghost var one;
      assert OpOk(ops[|counts|], s0.n);
      c, one := Perform(fs, home, ops[|counts|], AppliedAll(v0, done));
      StepMore(v0, done, one, ops, counts);
      counts, done := counts + [c], done + [one];
    }
    GroupOutcomes(fs.sb, r, d, home, s0, fs.Now(), v0, AppliedAll(v0, done));
  }

  /** The k-th operation returned what it should, given what the ones before it did. */
  ghost predicate Step(v0: View, done: seq<Done>, k: nat, op: Op, count: int) {
    k < |done| && done[k].op == op && done[k].count == count && DoneOk(AppliedAll(v0, done[..k]).files, done[k])
  }

  lemma StepMore(v0: View, done: seq<Done>, one: Done, ops: seq<Op>, counts: seq<int>)
    requires |counts| == |done| < |ops| && forall k | 0 <= k < |counts| :: Step(v0, done, k, ops[k], counts[k])
    requires one.op == ops[|done|] && DoneOk(AppliedAll(v0, done).files, one)
    ensures AppliedAll(v0, done + [one]) == Next(AppliedAll(v0, done), one)
    ensures forall k | 0 <= k <= |counts| :: Step(v0, done + [one], k, ops[k], (counts + [one.count])[k])
  {
    hide DoneOk, Next;
    assert (done + [one])[..|done|] == done;
    forall k | 0 <= k < |counts| ensures Step(v0, done + [one], k, ops[k], (counts + [one.count])[k]) {
      assert Step(v0, done, k, ops[k], counts[k]);
      assert (done + [one])[..k] == done[..k];
    }
  }

  lemma GroupOutcomes(sb: Super, r: L.Region, d: D.Disk, home: Blocks, s0: State, s: State, v0: View, v: View)
    requires Fits(sb, r) && Shows(r, d, home) && s0.l == {} && Reflects(sb, home, s0, v0) && Reflects(sb, home, s, v)
    ensures forall lh, cut, js, after | Lists(lh, s.l) && CrashedTo(r, d, s.b, lh, cut, js, after) ::
              CrashOutcome(sb, s, v0, v, L.PastCommitPoint(lh, cut), after)
  {
    hide Reflects, Shows, Fits, CrashedTo, Lists, CrashOutcome, L.PastCommitPoint;
    forall lh, cut, js, after | Lists(lh, s.l) && CrashedTo(r, d, s.b, lh, cut, js, after)
      ensures CrashOutcome(sb, s, v0, v, L.PastCommitPoint(lh, cut), after)
    {
      CommitOutcome(sb, r, d, home, s0, s, v0, v, lh, cut, js, after);
    }
  }

  // ---------------------------------------------------------------- one operation per transaction

  /** In a block that this write logged, there is an earlier uncounted byte that it did not overwrite, unlike the counted one. */
  ghost predicate Spoiled(s: State, v: View, d: Done) {
    exists o | StaysAt(v, d, o) :: InLog(s, d.op.i, o) && v.extra[d.op.i][o] != v.files[d.op.i][o]
  }

  /** What a write logs for other files: nothing with data. */
  lemma OtherNotLogged(sb: Super, s1: State, s: State, kept: Blocks, i: int, first: int, k: nat, j: int, o: int)
    requires s1.l == {} && Inv(sb, s.b, s.n, s.u) && Inv(sb, kept, s.n, s.u) && i in s.n && |s.n[i].addrs| == 13 && 0 <= first && first + k <= MAXFILE
    requires LogCovers(sb, s1.b, s1.l, kept, s.l, Touched(kept, s.n[i], first, k) + {IBlock(sb, i)})
    requires j in s.n && j != i && |s.n[j].addrs| == 13 && 0 <= o < s.n[j].size <= MAXFILE * BSIZE
    ensures !InLog(s, j, o)
  {
    hide AddrAt, Inv, InBitmap, Touched;
    var x := AddrAt(s.b, s.n[j], SlotOf(o / BSIZE));
    MappedByte(sb, s, j, o);
    BitmapLow(sb, s.b, s.n, s.u, x);
    InodeFits(sb, s.b, s.n, s.u, i);
    if x in Touched(kept, s.n[i], first, k) { TouchedIsData(sb, kept, s.n, s.u, i, first, k, x); }
  }

  /** The bytes of the failed copy itself do no harm: if their block is in the log, it was new, and they lie beyond the end. */
  lemma OwnNotLogged(sb: Super, s1: State, s: State, d: Done, k: int, o: int)
    requires s1.l == {} && Inv(sb, s1.b, s1.n, s1.u) && Inv(sb, s.b, s.n, s.u) && d.op.Write? && d.op.i in s1.n
    requires WroteTo(s1, s, d.op.i, d.op.off, d.op.data, d.count, d.wr, k) && NewIfLogged(s1, s, d.op.i, d.op.off, d.count, d.wr)
    requires d.wr == d.count || (d.wr == d.op.avail && d.count == CopyTot(d.op.off, d.op.avail))
    requires d.op.off + d.count <= o < d.op.off + d.wr && o < s1.n[d.op.i].size <= MAXFILE * BSIZE
    ensures !InLog(s, d.op.i, o)
  {
    hide AddrAt, Inv, ByteAt, SameFiles;
    MappedByte(sb, s1, d.op.i, o);
    SameAddr(sb, s1, s, d.op.i, o);
    SameChunk(d.op.off, d.op.avail, o);
  }

  lemma SameChunk(off: int, avail: nat, o: int)
    requires 0 <= off && off + CopyTot(off, avail) <= o < off + avail
    ensures o / BSIZE == (off + CopyTot(off, avail)) / BSIZE
  {
  }

  lemma CleanWrite(sb: Super, home: Blocks, s1: State, s: State, kept: Blocks, d: Done, k: nat, v: View)
    requires s1.l == {} && Reflects(sb, home, s1, v) && Reflects(sb, home, s, Next(v, d)) && Inv(sb, kept, s.n, s.u) && d.op.Write? && d.op.i in s1.n
    requires d.op.off / BSIZE + k <= MAXFILE && d.op.off <= s1.n[d.op.i].size && d.op.off + |d.op.data| <= MAXFILE * BSIZE
    requires WroteTo(s1, s, d.op.i, d.op.off, d.op.data, d.count, d.wr, k) && NewIfLogged(s1, s, d.op.i, d.op.off, d.count, d.wr)
    requires LogCovers(sb, s1.b, s1.l, kept, s.l, Touched(kept, s.n[d.op.i], d.op.off / BSIZE, k) + {IBlock(sb, d.op.i)})
    requires d.wr == d.count || (d.wr == d.op.avail && d.count == CopyTot(d.op.off, d.op.avail))
    ensures Next(v, d).extra.Keys == Next(v, d).files.Keys && (Clean(s, Next(v, d)) <==> !Spoiled(s, v, d))
  {
    hide Inv, Reflects, AddrAt, LogCovers, Touched, NewIfLogged, InLog, CopyTot, WroteTo, Next, OnDisk, Overwrite;
    ReflectsFacts(sb, home, s1, v);
    ReflectsFacts(sb, home, s, Next(v, d));
    WriteDone(s1, s, d, k);
    forall j, o | j in v.files && o in Next(v, d).extra[j] && 0 <= o < |Next(v, d).files[j]| && InLog(s, j, o)
      ensures j == d.op.i && StaysAt(v, d, o)
    {
      AfterWrite(v, d, j, o);
      if j != d.op.i {
        OtherNotLogged(sb, s1, s, kept, d.op.i, d.op.off / BSIZE, k, j, o);
      } else if d.op.off + d.count <= o < d.op.off + d.wr {
        OwnNotLogged(sb, s1, s, d, k, o);
      }
    }
    forall o | StaysAt(v, d, o) ensures StillAt(v, d, o) { AfterWrite(v, d, d.op.i, o); }
  }

  /** An earlier uncounted byte of the file, below its size, that the write did not overwrite. */
  ghost predicate StaysAt(v: View, d: Done, o: int) {
    && d.op.Write? && d.op.i in v.files && d.op.i in v.extra
    && o in v.extra[d.op.i] && 0 <= o < |v.files[d.op.i]| && !(d.op.off <= o < d.op.off + d.wr)
  }

  ghost predicate StillAt(v: View, d: Done, o: int)
    requires StaysAt(v, d, o)
  {
    var v', i := Next(v, d), d.op.i;
    && i in v'.files && i in v'.extra && o in v'.extra[i] && o < |v'.files[i]|
    && v'.extra[i][o] == v.extra[i][o] && v'.files[i][o] == v.files[i][o]
  }

  lemma AfterWrite(v: View, d: Done, j: int, o: int)
    requires d.op.Write? && 0 <= d.count <= d.wr <= |d.op.data| && d.op.i in v.files && v.extra.Keys == v.files.Keys && j in v.files
    requires 0 <= d.op.off <= |v.files[d.op.i]| && 0 <= o
    ensures Next(v, d).extra.Keys == Next(v, d).files.Keys == v.files.Keys
    ensures o in Next(v, d).extra[j] && o < |Next(v, d).files[j]| && j == d.op.i ==>
              o < |v.files[j]| && (d.op.off + d.count <= o < d.op.off + d.wr || StaysAt(v, d, o))
    ensures j == d.op.i && StaysAt(v, d, o) ==> StillAt(v, d, o)
    ensures j != d.op.i ==> Next(v, d).files[j] == v.files[j] && Next(v, d).extra[j] == v.extra[j]
  {
  }

  /**
   * writei() by one filewrite() and its commit, cut anywhere.  Whether the write fails midway, for
   * want of blocks or in a copy, after recovery file i holds its old bytes, or those and the bytes
   * that count as written; which of the two depends on the commit point alone, unless an earlier
   * failed copy has left bytes in a block that this write logs.
   */
  method CrashingWrite(fs: Disk, home: Blocks, r: L.Region, ghost d: D.Disk, i: int, off: int, data: seq<int>, avail: nat, ghost v: View)
    returns (ret: int, ghost done: Done)
    requires Reflects(fs.sb, home, fs.Now(), v) && fs.logged == {} && i in fs.inodes
    requires Fits(fs.sb, r) && Shows(r, d, home) && L.LogEmpty(r, d) && r.size > 7 && fs.sb.size <= BPB
    requires 0 <= off < U32 && |data| <= (MAXOPBLOCKS - 1 - 1 - 2) / 2 * BSIZE && forall j | 0 <= j < |data| :: 0 <= data[j] < 256
    modifies fs`blocks, fs`inodes, fs`use, fs`logged
    ensures done.op == Write(i, off, data, avail) && done.count == ret && i in v.files && Reflects(fs.sb, home, fs.Now(), Next(v, done))
    ensures ret == -1 <==> off > |v.files[i]| || off + |data| > MAXFILE * BSIZE
    ensures ret != -1 ==> 0 <= ret <= |data| && (!Lacking(old(fs.Now()), i, off, |data|, avail) ==> ret == Goal(off, |data|, avail))
    ensures ret != -1 ==> forall lh | Lists(lh, fs.logged) :: L.Committable(r, d, lh, Cached(fs.blocks, lh))
    ensures ret != -1 ==>
              forall lh, cut, js, after | Lists(lh, fs.logged) && CrashedTo(r, d, fs.blocks, lh, cut, js, after) ::
                if L.PastCommitPoint(lh, cut) then Holds(fs.sb, after, v.files[i := Overwrite(v.files[i], off, data[..ret])]) <==> !Spoiled(fs.Now(), v, done)
                else Holds(fs.sb, after, v.files)
  {
    hide Inv, AddrAt, LogCovers, Touched, Full, WroteTo, OnDisk, Stopped, KeptBut, NewIfLogged, CopyTot, Synced, Contents, Overwrite,
         CrashedTo, Holds, Lists, Shows, SameFiles, AllBytes, Fits, L.Committable, L.LogEmpty, Cached, Reflects, Lacking, RunsOut,
         NewLogged, CountedLogged, NoLoose, Clean, Stained, Spoiled, LeftIn, L.PastCommitPoint, Left;
    ghost var s0 := fs.Now();
    ReflectsFacts(fs.sb, home, s0, v);
    fs.InodesFacts(i);
    ghost var wr, kept, k;
    ret, wr, kept, k := fs.WriteI(i, off, data, avail);
    done := Done(Write(i, off, data, avail), ret, wr);
    if ret == -1 {
      NotWritten(v, done);
      return;
    }
    ghost var s, t := fs.Now(), Touched(kept, fs.inodes[i], off / BSIZE, k) + {IBlock(fs.sb, i)};
    WriteDone(s0, s, done, k);
    WriteReflects(fs.sb, home, s0, s, kept, done, k, t, v);
    CleanWrite(fs.sb, home, s0, s, kept, done, k, v);
    WriteCommits(fs, home, r, d, s0, kept, i, off, |data|, k);
    GroupOutcomes(fs.sb, r, d, home, s0, s, v, Next(v, done));
  }

  /** One write's blocks fit in the log. */
  lemma WriteCommits(fs: Disk, home: Blocks, r: L.Region, d: D.Disk, s0: State, kept: Blocks, i: int, off: int, n: int, k: nat)
    requires fs.Valid() && Inv(fs.sb, kept, fs.inodes, fs.use) && i in fs.inodes && |fs.inodes[i].addrs| == 13 && OnDisk(fs.sb, kept, i, fs.inodes[i])
    requires 0 <= off && 0 <= n <= (MAXOPBLOCKS - 1 - 1 - 2) / 2 * BSIZE && fs.sb.size <= BPB && r.size > 7 && home.Keys == s0.b.Keys
    requires k <= Span(off, n) && off / BSIZE + k <= MAXFILE && IBlock(fs.sb, i) in fs.logged && Fits(fs.sb, r) && Shows(r, d, home) && L.LogEmpty(r, d)
    requires LogCovers(fs.sb, s0.b, {}, kept, fs.logged, Touched(kept, fs.inodes[i], off / BSIZE, k) + {IBlock(fs.sb, i)})
    requires Inv(fs.sb, s0.b, s0.n, s0.u)
    ensures forall lh | Lists(lh, fs.logged) :: L.Committable(r, d, lh, Cached(fs.blocks, lh))
  {
    hide Inv, AddrAt, LogCovers, Touched, OnDisk, Lists, Shows, AllBytes, Fits, L.Committable, L.LogEmpty, Cached;
    var s := fs.Now();
    InvBytes(fs.sb, s0);
    InvBytes(fs.sb, s);
    LayoutIs(fs.sb, fs.blocks, s);
    SameKeys(s0.b, s.b, fs.sb.size);
    fs.FileWriteFits(s0.b, {}, kept, i, off, n, k);
    assert fs.logged - {} == fs.logged;
    WriteIsHome(fs.sb, s0.b, kept, s, i, off / BSIZE, k);
    forall lh | Lists(lh, s.l) ensures L.Committable(r, d, lh, Cached(s.b, lh)) { CanCommit(fs.sb, r, d, home, s.b, s.l, lh); }
  }

  /** Every block that a write logs is a home block, and the inode's block is one of them. */
  lemma WriteIsHome(sb: Super, b0: Blocks, kept: Blocks, s: State, i: int, first: int, k: nat)
    requires Inv(sb, kept, s.n, s.u) && i in s.n && |s.n[i].addrs| == 13 && 0 <= first && first + k <= MAXFILE
    requires LogCovers(sb, b0, {}, kept, s.l, Touched(kept, s.n[i], first, k) + {IBlock(sb, i)}) && OnDisk(sb, kept, i, s.n[i])
    requires (forall x :: x in s.b <==> 0 <= x < sb.size) && IBlock(sb, i) in s.l
    ensures s.l != {} && forall x | x in s.l :: x in s.b && sb.inodestart <= x
  {
    hide AddrAt, Touched, Inv;
    InodeFits(sb, kept, s.n, s.u, i);
    InvBytes(sb, s.(b := kept));
    LayoutIs(sb, kept, s);
    forall x | x in s.l ensures x in s.b && sb.inodestart <= x {
      if x in Touched(kept, s.n[i], first, k) && x != 0 { TouchedIsData(sb, kept, s.n, s.u, i, first, k, x); }
    }
  }

  /** itrunc() and its commit, cut anywhere: file i is what it was, or empty. */
  method CrashingTrunc(fs: Disk, home: Blocks, r: L.Region, ghost d: D.Disk, i: int, ghost v: View)
    requires Reflects(fs.sb, home, fs.Now(), v) && fs.logged == {} && i in fs.inodes
    requires Fits(fs.sb, r) && Shows(r, d, home)
    modifies fs`blocks, fs`inodes, fs`use, fs`logged
    ensures i in v.files && i in v.extra && Reflects(fs.sb, home, fs.Now(), View(v.files[i := []], v.extra[i := map[]]))
    ensures L.LogEmpty(r, d) && r.size > 2 && fs.sb.size <= BPB ==>
              forall lh | Lists(lh, fs.logged) :: L.Committable(r, d, lh, Cached(fs.blocks, lh))
    ensures forall lh, cut, js, after | Lists(lh, fs.logged) && CrashedTo(r, d, fs.blocks, lh, cut, js, after) ::
              Holds(fs.sb, after, if L.PastCommitPoint(lh, cut) then v.files[i := []] else v.files)
  {
    hide Inv, AddrAt, LogCovers, OnDisk, Synced, Contents, CrashedTo, Holds, SameFiles, Lists, Shows, AllBytes, Fits, L.Committable, L.LogEmpty, Cached,
         Reflects, NoLoose, Clean, Stained, L.PastCommitPoint, Dropped;
    ghost var s0 := fs.Now();
    ReflectsFacts(fs.sb, home, s0, v);
    fs.ITrunc(i);
    ghost var s := fs.Now();
    TruncReflects(fs.sb, home, s0, s, i, {IBlock(fs.sb, i)}, v);
    TruncClean(fs.sb, home, s0, s, i, View(v.files[i := []], v.extra[i := map[]]));
    GroupOutcomes(fs.sb, r, d, home, s0, s, v, View(v.files[i := []], v.extra[i := map[]]));
    if L.LogEmpty(r, d) && r.size > 2 && fs.sb.size <= BPB {
      InvBytes(fs.sb, s0);
      InvBytes(fs.sb, s);
      SameKeys(s0.b, s.b, fs.sb.size);
      TruncIsHome(fs.sb, s0, s, i);
      forall lh | Lists(lh, s.l) ensures L.Committable(r, d, lh, Cached(s.b, lh)) { CanCommit(fs.sb, r, d, home, s.b, s.l, lh); }
    }
  }

  /** A truncation logs no block with data. */
  lemma TruncClean(sb: Super, home: Blocks, s0: State, s: State, i: int, v: View)
    requires s0.l == {} && Reflects(sb, home, s, v) && i in s.n && LogCovers(sb, s0.b, s0.l, s.b, s.l, {IBlock(sb, i)})
    ensures v.extra.Keys == v.files.Keys && Clean(s, v)
  {
    hide Inv, Reflects, AddrAt, InBitmap;
    ReflectsFacts(sb, home, s, v);
    InodeFits(sb, s.b, s.n, s.u, i);
    forall j, o | j in v.files && o in v.extra[j] && 0 <= o < |v.files[j]| ensures !InLog(s, j, o) {
      MappedByte(sb, s, j, o);
      BitmapLow(sb, s.b, s.n, s.u, AddrAt(s.b, s.n[j], SlotOf(o / BSIZE)));
    }
  }

  /** A truncation logs the inode's block and bitmap blocks: with one of those, two at most. */
  lemma TruncIsHome(sb: Super, s0: State, s: State, i: int)
    requires Inv(sb, s.b, s.n, s.u) && i in s.n && LogCovers(sb, s0.b, {}, s.b, s.l, {IBlock(sb, i)}) && IBlock(sb, i) in s.l && sb.size <= BPB
    ensures s.l != {} && |s.l| <= 2 && forall x | x in s.l :: x in s.b && sb.inodestart <= x
  {
    hide AddrAt, Inv;
    InodeFits(sb, s.b, s.n, s.u, i);
    InvBytes(sb, s);
    LayoutIs(sb, s.b, s);
    assert (sb.size - 1) / BPB == 0;
    forall x | x in s.l ensures x == IBlock(sb, i) || x == sb.bmapstart { }
    SubsetSize(s.l, {IBlock(sb, i), sb.bmapstart});
  }

  // ---------------------------------------------------------------- buffers fresh from the disk

  ghost function NoExtra(inums: set<int>): map<int, map<int, int>> { map j | j in inums :: map[] }

  /** After mounting, there are no uncounted bytes. */
  lemma Begin(sb: Super, s: State)
    requires Mounted(sb, s) && s.l == {}
    ensures Reflects(sb, s.b, s, View(Files(s), NoExtra(s.n.Keys)))
  {
    hide Inv, Synced, AddrAt, ByteAt;
    InvBytes(sb, s);
    InodeSizes(sb, s);
    forall j | j in s.n ensures FileShown(s.b, s, j, FileOf(s, j), map[]) {
      forall o | 0 <= o < s.n[j].size ensures ByteShown(s.b, s, j, o, FileOf(s, j), map[]) {
        MappedByte(sb, s, j, o);
        ByteIs(s, j, o);
      }
    }
  }

  lemma ByteIs(s: State, j: int, o: int)
    requires j in s.n && |s.n[j].addrs| == 13 && 0 <= o < s.n[j].size <= MAXFILE * BSIZE
    requires var x := AddrAt(s.b, s.n[j], SlotOf(o / BSIZE)); x != 0 && x in s.b && |s.b[x]| == BSIZE
    ensures FileOf(s, j)[o] == ByteAt(s.b, s.n[j], o) == s.b[AddrAt(s.b, s.n[j], SlotOf(o / BSIZE))][o % BSIZE]
  {
    hide AddrAt;
  }

  /** With no uncounted bytes, bread() shows the files as the counts say. */
  lemma ShownFiles(sb: Super, home: Blocks, s: State, v: View)
    requires Reflects(sb, home, s, v) && forall j | j in v.extra :: v.extra[j] == map[]
    ensures Files(s) == v.files
  {
    hide Mounted, Apart, AddrAt, ByteAt;
    forall j | j in s.n ensures FileOf(s, j) == v.files[j] {
      assert FileShown(home, s, j, v.files[j], v.extra[j]);
      forall o | 0 <= o < |v.files[j]| ensures ByteAt(s.b, s.n[j], o) == v.files[j][o] {
        assert ByteShown(home, s, j, o, v.files[j], v.extra[j]);
      }
    }
  }

  // ---------------------------------------------------------------- counts that the disk does not keep

  /** A write to the first block of a file needs one block at most, and none if the file has it. */
  lemma FirstBlock(sb: Super, s: State, i: int, off: int, n: nat, avail: nat)
    requires Inv(sb, s.b, s.n, s.u) && i in s.n && 0 <= off && off + n <= BSIZE && (s.n[i].size > 0 || !Full(s.u))
    ensures !Lacking(s, i, off, n, avail)
  {
    hide BitsOk, BlocksOk, SlotsOk, Full, Free;
    FreeNone(s.u);
    assert FileOk(s.b, s.n[i]);
    assert 0 * BSIZE < s.n[i].size ==> AddrAt(s.b, s.n[i], SlotOf(0)) != 0;
    if Rounds(off, n, avail) != 0 {
      assert Rounds(off, n, avail) == 1 && off / BSIZE == 0;
      assert Need(s.b, s.n[i], 0, 0) == 0;
      assert Need(s.b, s.n[i], 0, 1) == if AddrAt(s.b, s.n[i], SlotOf(0)) == 0 then 1 else 0;
    }
  }

  /**
   * The file holds the bytes 1 and 2, on the disk too.  A write of 7 and 8 fails after its first byte
   * and returns 0; a write of 9 at offset 1 returns 1, and logs the block.  The counts say 1 and 9, and
   * the commit puts 7 and 9 on the disk.
   */
  method StainedCommit() returns (fs: Disk, home: Blocks, first: int, second: int, ghost before: State, ghost v: View)
    ensures fs.sb == MKFS && Mounted(MKFS, before) && before.b == home && 1 in before.n && FileOf(before, 1) == [1, 2]
    ensures first == 0 && second == 1 && Reflects(MKFS, home, fs.Now(), v) && 1 in v.files && v.files[1] == [1, 9]
    ensures 1 in fs.inodes && FileOf(fs.Now().(b := Durable(home, fs.blocks, fs.logged)), 1) == [7, 9]
    ensures v.extra.Keys == v.files.Keys && !Clean(fs.Now(), v)
  {
    hide Inv, AddrAt, ByteAt, Contents, MarkFirst, FreshUse, Mounted, Reflects, Lacking, Goal, CountedLogged, Next, Stained, Clean, FileOf;
    ghost var d0, d1;
    var made;
    made, before := Prepared();
    home := made.blocks;
    ghost var v0 := View(Files(before), NoExtra(before.n.Keys));
    Begin(MKFS, before);
    MountedFacts(MKFS, before);
    fs := new Disk(MKFS, made.blocks, made.inodes, made.use);
    assert fs.Now() == before;
    FirstBlock(MKFS, before, 1, 0, 2, 1);
    first, d0 := Perform(fs, home, Write(1, 0, [7, 8], 1), v0);
    ghost var v1 := Next(v0, d0);
    Goals();
    AfterFirst(v0, d0);
    ReflectsFacts(MKFS, home, fs.Now(), v1);
    FirstBlock(MKFS, fs.Now(), 1, 1, 1, 1);
    second, d1 := Perform(fs, home, Write(1, 1, [9], 1), v1);
    v := Next(v1, d1);
    AfterSecond(v1, d1);
    ReflectsFacts(MKFS, home, fs.Now(), v);
    DurableFiles(MKFS, home, fs.Now(), v);
    LoggedFirst(fs.Now());
    StainedSecond(fs.Now(), v);
    CleanIff(fs.Now(), v);
  }

  lemma MountedFacts(sb: Super, s: State)
    requires Mounted(sb, s)
    ensures Inv(sb, s.b, s.n, s.u)
  {
  }

  lemma Goals()
    ensures Goal(0, 2, 1) == 0 && Goal(1, 1, 1) == 1 && Goal(0, 2, 2) == 2
  {
  }

  lemma AfterFirst(v: View, d: Done)
    requires 1 in v.files && v.files[1] == [1, 2] && 1 in v.extra && v.extra[1] == map[] && d == Done(Write(1, 0, [7, 8], 1), 0, 1)
    ensures 1 in Next(v, d).files && Next(v, d).files[1] == [1, 2] && 1 in Next(v, d).extra && Next(v, d).extra[1] == map[0 := 7]
  {
  }

  lemma AfterSecond(v: View, d: Done)
    requires 1 in v.files && v.files[1] == [1, 2] && 1 in v.extra && v.extra[1] == map[0 := 7] && d == Done(Write(1, 1, [9], 1), 1, 1)
    ensures 1 in Next(v, d).files && Next(v, d).files[1] == [1, 9] && 1 in Next(v, d).extra && Next(v, d).extra[1] == map[0 := 7]
  {
  }

  lemma LoggedFirst(s: State)
    requires CountedLogged(s, 1, 1, 1)
    ensures InLog(s, 1, 0)
  {
    hide AddrAt;
    assert 1 / BSIZE == 0 / BSIZE;
  }

  lemma StainedSecond(s: State, v: View)
    requires InLog(s, 1, 0) && v.extra.Keys == v.files.Keys && 1 in v.files && v.files[1] == [1, 9] && v.extra[1] == map[0 := 7]
    ensures 1 in Stained(s, v) && Stained(s, v)[1] == [7, 9]
  {
    hide InLog;
  }

  /** A file system with one file, which holds the bytes 1 and 2. */
  method Prepared() returns (fs: Disk, ghost s: State)
    ensures fs.sb == MKFS && s == fs.Now().(l := {}) && Mounted(MKFS, s) && 1 in s.n && FileOf(s, 1) == [1, 2] && s.n[1].size == 2
  {
    hide Inv, AddrAt, ByteAt, Contents, MarkFirst, FreshUse, Mounted, Reflects, Lacking, Goal, CountedLogged, Next, FileOf, OnDisk;
    var inodes := map[1 := Inode(seq(13, k => 0), 0)];
    fs := FreshDisk(inodes);
    var count; ghost var d;
    ghost var s0, v0 := fs.Now(), View(Files(fs.Now()), NoExtra(fs.inodes.Keys));
    Begin(MKFS, s0);
    MountedFacts(MKFS, s0);
    EmptyFirst(s0);
    FirstBlock(MKFS, s0, 1, 0, 2, 2);
    count, d := Perform(fs, fs.blocks, Write(1, 0, [1, 2], 2), v0);
    Goals();
    AfterPreparing(v0, d);
    ReflectsFacts(MKFS, s0.b, fs.Now(), Next(v0, d));
    ShownFiles(MKFS, s0.b, fs.Now(), Next(v0, d));
    s := fs.Now().(l := {});
    Unlogged(MKFS, fs.Now());
  }

  lemma Unlogged(sb: Super, s: State)
    requires Inv(sb, s.b, s.n, s.u) && Synced(sb, s.b, s.n)
    ensures Mounted(sb, s.(l := {})) && Files(s.(l := {})) == Files(s)
  {
    hide Inv, Synced;
    forall j | j in s.n ensures FileOf(s.(l := {}), j) == FileOf(s, j) { }
    assert Files(s.(l := {})).Keys == Files(s).Keys;
  }

  lemma EmptyFirst(s: State)
    requires 1 in s.n && |s.n[1].addrs| == 13 && s.n[1].size == 0
    ensures FileOf(s, 1) == []
  {
  }

  lemma AfterPreparing(v: View, d: Done)
    requires v.files.Keys == {1} && v.files[1] == [] && v.extra == NoExtra({1}) && d == Done(Write(1, 0, [1, 2], 2), 2, 2)
    ensures 1 in Next(v, d).files && Next(v, d).files[1] == [1, 2] && forall j | j in Next(v, d).extra :: Next(v, d).extra[j] == map[]
  {
  }

  /** The disk as mkfs makes it, with the given empty inodes. */
  method FreshDisk(inodes: Inodes) returns (fs: Disk)
    requires inodes == map[1 := Inode(seq(13, k => 0), 0)]
    ensures fresh(fs) && fs.sb == MKFS && fs.inodes == inodes && fs.logged == {} && Mounted(MKFS, fs.Now()) && !Full(fs.use)
  {
    hide AddrAt, MarkFirst, OnDisk, BitsOk, SlotsOk, FilesOk;
    FreshInv(MKFS, inodes);
    FreshSynced(MKFS, inodes);
    fs := new Disk(MKFS, MarkFirst(MKFS, MKFS.nmeta), inodes, FreshUse(MKFS.size, MKFS.nmeta));
    assert fs.use[46] == Unused;
  }
}
