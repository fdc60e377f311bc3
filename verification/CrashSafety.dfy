/**
 * Files across crashes: the operations of module FileSystem, committed by the log of module
 * LogCrash.  A disk recovered from a crash at any block write holds every file wholly as it was
 * before the transaction, or wholly as the transaction's operations left it.
 */
module CrashSafety {
  import opened BlockOwnership
  import opened Counting
  import opened FileSystem
  import opened Machine
  import opened Params
  import D = Blocks
  import L = LogCrash

  // ---------------------------------------------------------------- bytes and words

  /** A block of bytes, as the words that module LogCrash deals in. */
  function AsBlock(bytes: seq<int>): D.Block
    requires |bytes| == BSIZE
  {
    D.Block(seq(NINDIRECT, j requires 0 <= j < NINDIRECT => Word(bytes, j)))
  }

  lemma FourBytes(a: int, b: int, c: int, d: int, w: int)
    requires 0 <= a < 256 && 0 <= b < 256 && 0 <= c < 256 && 0 <= d < 256 && w == a + 256 * b + 65536 * c + 16777216 * d
    ensures a == w % 256 && b == w / 256 % 256 && c == w / 65536 % 256 && d == w / 16777216
  {
    assert w / 256 == b + 256 * c + 65536 * d;
    assert w / 65536 == c + 256 * d;
  }

  lemma SameWord(x: seq<int>, y: seq<int>, j: int)
    requires Bytes(x) && Bytes(y) && 0 <= j < NINDIRECT && Word(x, j) == Word(y, j)
    ensures forall k | 4 * j <= k < 4 * j + 4 :: x[k] == y[k]
  {
    var w := Word(x, j);
    FourBytes(x[4 * j], x[4 * j + 1], x[4 * j + 2], x[4 * j + 3], w);
    FourBytes(y[4 * j], y[4 * j + 1], y[4 * j + 2], y[4 * j + 3], w);
  }

  /** Nothing is lost between bytes and words. */
  lemma WordsDetermine(x: seq<int>, y: seq<int>)
    requires Bytes(x) && Bytes(y) && AsBlock(x) == AsBlock(y)
    ensures x == y
  {
    hide Word;
    forall k | 0 <= k < BSIZE ensures x[k] == y[k] {
      assert AsBlock(x).words[k / 4] == AsBlock(y).words[k / 4];
      SameWord(x, y, k / 4);
    }
  }

  // ---------------------------------------------------------------- the disk and the file system on it

  /** The log lies before the inode blocks. */
  ghost predicate Fits(sb: Super, r: L.Region) {
    0 <= r.start && 1 <= r.size && r.start + r.size <= sb.inodestart
  }

  /** Outside the log, disk d holds the given blocks. */
  ghost predicate Shows(r: L.Region, d: D.Disk, b: Blocks) {
    d.Keys == b.Keys && forall x | x in b && !r.Contains(x) :: |b[x]| == BSIZE && d[x] == AsBlock(b[x])
  }

  ghost predicate AllBytes(b: Blocks) { forall x | x in b :: Bytes(b[x]) }

  /** What the log writes for each block in it: the buffer's contents. */
  ghost function Cached(b: Blocks, lh: seq<int>): map<int, D.Block> {
    map x | x in lh && x in b && |b[x]| == BSIZE :: AsBlock(b[x])
  }

  ghost predicate Lists(lh: seq<int>, l: set<int>) {
    L.NoDup(lh) && forall x :: x in lh <==> x in l
  }

  /**
   * The commit of the blocks `lh`, with contents from the buffers `b`, on disk d is cut after `cut`
   * block writes; recoveries are cut after js of theirs; one completes; and `after` is what the disk holds.
   */
  ghost predicate CrashedTo(r: L.Region, d: D.Disk, b: Blocks, lh: seq<int>, cut: nat, js: seq<nat>, after: Blocks) {
    && L.Committable(r, d, lh, Cached(b, lh)) && cut <= 2 * |lh| + 2
    && L.DiskOk(r, L.Committing(r, d, lh, Cached(b, lh), cut)) && AllBytes(after)
    && Shows(r, L.Recovered(r, L.CrashedRecoveries(r, L.Committing(r, d, lh, Cached(b, lh), cut), js)), after)
  }

  /** The blocks when what is in the log has reached the disk, and nothing else has. */
  ghost function Durable(b0: Blocks, b: Blocks, l: set<int>): (r: Blocks)
    ensures r.Keys == b0.Keys
  {
    map x | x in b0 :: if x in l && x in b then b[x] else b0[x]
  }

  /** All or nothing, for blocks. */
  lemma CrashShows(r: L.Region, d: D.Disk, b0: Blocks, b: Blocks, l: set<int>, lh: seq<int>, cut: nat, js: seq<nat>, after: Blocks)
    requires Shows(r, d, b0) && AllBytes(b0) && AllBytes(b) && b.Keys == b0.Keys && Lists(lh, l)
    requires CrashedTo(r, d, b, lh, cut, js, after)
    ensures after.Keys == b0.Keys
    ensures forall x | x in after && !r.Contains(x) :: after[x] == if L.PastCommitPoint(lh, cut) then Durable(b0, b, l)[x] else b0[x]
  {
    hide AsBlock, L.Committing, L.Recovered, L.CrashedRecoveries, L.Committable, Bytes;
    var v := Cached(b, lh);
    L.CrashAtomicity(r, d, lh, v, cut, js);
    var f := L.Recovered(r, L.CrashedRecoveries(r, L.Committing(r, d, lh, v, cut), js));
    forall x | x in after && !r.Contains(x)
      ensures after[x] == if L.PastCommitPoint(lh, cut) then Durable(b0, b, l)[x] else b0[x]
    {
      assert x in L.Home(r, f) && x in L.Home(r, d);
      BytesSize(after[x]);
      BytesSize(b[x]);
      BytesSize(b0[x]);
      assert x in lh ==> x in v;
      assert AsBlock(after[x]) == L.Home(r, f)[x];
      WordsDetermine(after[x], if L.PastCommitPoint(lh, cut) && x in lh then b[x] else b0[x]);
    }
  }

  /** Every crash leaves a disk behind. */
  lemma SomeDisk(r: L.Region, d: D.Disk, b0: Blocks, b: Blocks, l: set<int>, lh: seq<int>, cut: nat, js: seq<nat>)
    requires Shows(r, d, b0) && AllBytes(b0) && AllBytes(b) && b.Keys == b0.Keys && Lists(lh, l)
    requires L.Committable(r, d, lh, Cached(b, lh)) && cut <= 2 * |lh| + 2
    ensures exists after :: CrashedTo(r, d, b, lh, cut, js, after)
  {
    hide AsBlock, L.Committing, L.Recovered, L.CrashedRecoveries, L.Committable, Bytes;
    var v := Cached(b, lh);
    L.CrashAtomicity(r, d, lh, v, cut, js);
    var f := L.Recovered(r, L.CrashedRecoveries(r, L.Committing(r, d, lh, v, cut), js));
    var after := if L.PastCommitPoint(lh, cut) then Durable(b0, b, l) else b0;
    forall x | x in after && !r.Contains(x) ensures |after[x]| == BSIZE && f[x] == AsBlock(after[x]) {
      assert x in L.Home(r, d);
      BytesSize(b[x]);
      BytesSize(b0[x]);
      assert x in lh ==> x in v;
      assert f[x] == L.Home(r, f)[x];
    }
    assert CrashedTo(r, d, b, lh, cut, js, after);
  }

  lemma BytesSize(b: seq<int>)
    requires Bytes(b)
    ensures |b| == BSIZE
  {
  }

  // ---------------------------------------------------------------- mounting

  /** A file system between operations: consistent, with every inode written back. */
  ghost predicate Mounted(sb: Super, s: State) {
    Inv(sb, s.b, s.n, s.u) && Synced(sb, s.b, s.n)
  }

  /** What the log holds does not matter to the files. */
  lemma LogIsNoFile(sb: Super, r: L.Region, s: State, after: Blocks)
    requires Mounted(sb, s) && Fits(sb, r) && after.Keys == s.b.Keys && AllBytes(after)
    requires forall x | x in after && !r.Contains(x) :: after[x] == s.b[x]
    ensures Mounted(sb, s.(b := after)) && SameFiles(s.b, s.n, after, s.n, -1)
  {
    hide AddrAt, Marked, ByteAt, SameFile, SlotsOk, FilesOk, Bytes, OnDisk;
    assert Keeps(s.b, after, s.u, true) && Keeps(s.b, after, s.u, false);
    SlotsFrame(s.b, after, s.n, s.u, -1, 0);
    FilesFrame(s.b, after, s.n, s.u, -1, 0);
    forall x | x in s.u && 0 <= x ensures Marked(sb, after, x) <==> s.u[x] != Unused { SameMark(sb, s.b, after, x); }
    forall j | j in s.n ensures OnDisk(sb, after, j, s.n[j]) {
      InodeFits(sb, s.b, s.n, s.u, j);
      SameInodeBlock(sb, s.b, after, j, s.n[j]);
    }
  }

  lemma SameMark(sb: Super, b: Blocks, after: Blocks, x: int)
    requires LayoutOk(sb) && 0 <= x < sb.size && BBlock(sb, x) in after && BBlock(sb, x) in b && after[BBlock(sb, x)] == b[BBlock(sb, x)]
    ensures Marked(sb, after, x) == Marked(sb, b, x)
  {
  }

  /** Mounting the disk finds the files of `s`: the same inodes, and the same bytes. */
  ghost predicate Finds(sb: Super, after: Blocks, s: State) {
    Mounted(sb, s.(b := after)) && SameFiles(s.b, s.n, after, s.n, -1)
  }

  /** The contents of file j, with its inode read from the disk. */
  ghost predicate HasFile(sb: Super, after: Blocks, j: int, contents: seq<int>) {
    && 0 <= j && IBlock(sb, j) in after && |after[IBlock(sb, j)]| == BSIZE
    && var ip := DInode(sb, after, j);
       |ip.addrs| == 13 && 0 <= ip.size <= MAXFILE * BSIZE && Contents(after, ip) == contents
  }

  lemma FoundFile(sb: Super, after: Blocks, s: State, j: int)
    requires Finds(sb, after, s) && j in s.n
    ensures |s.n[j].addrs| == 13 && 0 <= s.n[j].size <= MAXFILE * BSIZE && HasFile(sb, after, j, Contents(s.b, s.n[j]))
  {
    hide AddrAt, ByteAt, Marked, DInode;
    assert OnDisk(sb, after, j, s.n[j]) && FileOk(after, s.n[j]) && j >= 0;
    assert SameFile(s.b, s.n[j], after, s.n[j]);
    assert Contents(after, s.n[j]) == Contents(s.b, s.n[j]);
  }

  /**
   * Any transaction: operations took the file system from s0 to s, where blocks changed without
   * being logged are not counted.  After a crash at any block write, and however many recoveries
   * are cut, the disk holds the files of s0 or those of s, and past the commit point those of s.
   */
  lemma TransactionAtomic(sb: Super, r: L.Region, d: D.Disk, s0: State, s: State, lh: seq<int>, cut: nat, js: seq<nat>, after: Blocks)
    requires Fits(sb, r) && Shows(r, d, s0.b) && Mounted(sb, s0) && s.b.Keys == s0.b.Keys && AllBytes(s.b)
    requires Mounted(sb, s.(b := Durable(s0.b, s.b, s.l))) && Lists(lh, s.l) && CrashedTo(r, d, s.b, lh, cut, js, after)
    ensures Finds(sb, after, if L.PastCommitPoint(lh, cut) then s.(b := Durable(s0.b, s.b, s.l)) else s0)
  {
    hide CrashedTo, Durable, Synced, SameFiles, Inv;
    InvBytes(sb, s0);
    CrashShows(r, d, s0.b, s.b, s.l, lh, cut, js, after);
    CrashedBytes(r, d, s.b, lh, cut, js, after);
    LogIsNoFile(sb, r, if L.PastCommitPoint(lh, cut) then s.(b := Durable(s0.b, s.b, s.l)) else s0, after);
  }

  lemma CrashedBytes(r: L.Region, d: D.Disk, b: Blocks, lh: seq<int>, cut: nat, js: seq<nat>, after: Blocks)
    requires CrashedTo(r, d, b, lh, cut, js, after)
    ensures AllBytes(after)
  {
  }

  lemma InvBytes(sb: Super, s: State)
    requires Inv(sb, s.b, s.n, s.u)
    ensures AllBytes(s.b) && forall x :: x in s.b <==> 0 <= x < sb.size
  {
  }

  /** The blocks that an operation logs are home blocks, and a few of them fit in the log. */
  lemma CanCommit(sb: Super, r: L.Region, d: D.Disk, b0: Blocks, b: Blocks, l: set<int>, lh: seq<int>)
    requires Fits(sb, r) && Shows(r, d, b0) && L.LogEmpty(r, d) && b.Keys == b0.Keys && AllBytes(b) && Lists(lh, l) && l != {}
    requires (forall x | x in l :: x in b && sb.inodestart <= x) && |l| <= LOGSIZE && |l| <= r.size - 1
    ensures L.Committable(r, d, lh, Cached(b, lh))
  {
    hide AsBlock, Bytes;
    ListLength(lh, l);
    assert |l| > 0;
    forall k | 0 <= k < |lh| ensures lh[k] in Cached(b, lh) && lh[k] in d && !r.Contains(lh[k]) {
      assert lh[k] in lh;
      BytesSize(b[lh[k]]);
    }
  }

  lemma {:induction false} ListLength(lh: seq<int>, l: set<int>)
    requires Lists(lh, l)
    ensures |lh| == |l|
    decreases |lh|
  {
    if lh == [] {
      forall x ensures x !in l { assert x !in lh; }
    } else {
      var last := lh[|lh| - 1];
      assert last in lh;
      var rest := lh[..|lh| - 1];
      forall x ensures x in rest <==> x in l - {last} { assert x in lh <==> x in rest || x == last; }
      ListLength(rest, l - {last});
    }
  }

  // ---------------------------------------------------------------- files

  /** A file as a sequence of bytes. */
  ghost function FileOf(s: State, j: int): seq<int>
    requires j in s.n
  {
    if |s.n[j].addrs| == 13 && 0 <= s.n[j].size <= MAXFILE * BSIZE then Contents(s.b, s.n[j]) else []
  }

  /** What the files are for: a sequence of bytes for every inode number. */
  ghost function Files(s: State): map<int, seq<int>> {
    map j | j in s.n :: FileOf(s, j)
  }

  /** Mounting the disk finds the given files. */
  ghost predicate Holds(sb: Super, after: Blocks, files: map<int, seq<int>>) {
    forall j | j in files :: HasFile(sb, after, j, files[j])
  }

  lemma FoundFiles(sb: Super, after: Blocks, s: State)
    requires Finds(sb, after, s)
    ensures Holds(sb, after, Files(s))
  {
    hide HasFile, Finds, Contents;
    forall j | j in s.n ensures HasFile(sb, after, j, FileOf(s, j)) { FoundFile(sb, after, s, j); }
  }

  lemma SameKeys(b0: Blocks, b: Blocks, n: int)
    requires (forall x :: x in b0 <==> 0 <= x < n) && forall x :: x in b <==> 0 <= x < n
    ensures b.Keys == b0.Keys
  {
    forall x ensures x in b.Keys <==> x in b0.Keys { assert x in b <==> x in b0; }
  }

  lemma InodeSizes(sb: Super, s: State)
    requires Inv(sb, s.b, s.n, s.u)
    ensures forall j | j in s.n :: |s.n[j].addrs| == 13 && 0 <= s.n[j].size <= MAXFILE * BSIZE
  {
    hide AddrAt, Marked;
    assert forall j | j in s.n :: FileOk(s.b, s.n[j]);
  }

  lemma LayoutIs(sb: Super, b: Blocks, s: State)
    requires Inv(sb, b, s.n, s.u)
    ensures LayoutOk(sb)
  {
  }
}
