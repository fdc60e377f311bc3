/**
 * Files over whole runs: any number of transactions, each of any operations, committed or cut
 * anywhere by a crash, with any number of recoveries cut in turn, over any number of boots.
 */
module FileHistory {
  import opened BlockOwnership
  import opened CrashSafety
  import opened FileSystem
  import opened GroupCommit
  import opened Params
  import D = Blocks
  import L = LogCrash

  /** Between transactions: the disk, its blocks as bytes, what is in memory, and what the files are. */
  datatype Config = Config(disk: D.Disk, home: Blocks, s: State, v: View)

  /** The disk shows `home`, the log is empty on it and in memory, and the view is right. */
  ghost predicate ConfigOk(sb: Super, r: L.Region, c: Config) {
    Shows(r, c.disk, c.home) && L.LogEmpty(r, c.disk) && c.s.l == {} && Reflects(sb, c.home, c.s, c.v)
  }

  /**
   * A transaction: its operations left `s` in memory, with the blocks `lh` in the log.  It commits, or
   * a crash cuts the commit after `at` block writes and recoveries after `recoveries` of theirs.
   */
  datatype Epoch = Epoch(done: seq<Done>, s: State, lh: seq<int>, crash: bool, at: nat, recoveries: seq<nat>)

  ghost function TxOf(e: Epoch): L.Tx { L.Tx(e.lh, Cached(e.s.b, e.lh)) }

  /** What CrashingGroup() leaves, with a log that can be committed. */
  ghost predicate EpochOk(sb: Super, r: L.Region, c: Config, e: Epoch) {
    && Reflects(sb, c.home, e.s, AppliedAll(c.v, e.done)) && Lists(e.lh, e.s.l)
    && L.TxOk(r, c.disk, TxOf(e)) && e.at <= 2 * |e.lh| + 2
  }

  /** The transaction reaches the disk. */
  predicate Lands(e: Epoch) { !e.crash || L.PastCommitPoint(e.lh, e.at) }

  /** Uncounted bytes that a commit leaves in buffers: those in blocks that are not in the log. */
  ghost function Remaining(s: State, v: View): map<int, map<int, int>> {
    map j | j in v.extra :: (map o | o in v.extra[j] && !InLog(s, j, o) :: v.extra[j][o])
  }

  /** What becomes of the files: nothing of a transaction that does not land; a crash empties the buffers. */
  ghost function NextView(v0: View, e: Epoch): View {
    var v := AppliedAll(v0, e.done);
    var files := if Lands(e) && v.extra.Keys == v.files.Keys then Stained(e.s, v) else v0.files;
    View(files, if e.crash then NoExtra(files.Keys) else Remaining(e.s, v))
  }

  ghost function NextConfig(r: L.Region, c: Config, e: Epoch): Config
    requires L.LogEmpty(r, c.disk) && L.TxOk(r, c.disk, TxOf(e)) && e.at <= 2 * |e.lh| + 2
  {
    var home := if Lands(e) then Durable(c.home, e.s.b, e.s.l) else c.home;
    var s := if !e.crash then e.s else if Lands(e) then e.s.(b := home) else c.s.(b := home);
    var disk := if e.crash then L.CutTx(r, c.disk, TxOf(e), e.at, e.recoveries) else L.CommitTx(r, c.disk, TxOf(e));
    Config(disk, home, s.(l := {}), NextView(c.v, e))
  }

  lemma LandsOnDisk(r: L.Region, d: D.Disk, d': D.Disk, home: Blocks, b: Blocks, l: set<int>, lh: seq<int>)
    requires Shows(r, d, home) && AllBytes(b) && b.Keys == home.Keys && Lists(lh, l) && d'.Keys == d.Keys
    requires L.Covers(Cached(b, lh), lh) && L.Home(r, d') == L.Atomically(L.Home(r, d), L.Tx(lh, Cached(b, lh)))
    ensures Shows(r, d', Durable(home, b, l))
  {
    hide AsBlock, Bytes;
    forall x | x in home && !r.Contains(x) ensures |Durable(home, b, l)[x]| == BSIZE && d'[x] == AsBlock(Durable(home, b, l)[x]) {
      BytesSize(b[x]);
      assert x in L.Home(r, d) && d'[x] == L.Home(r, d')[x];
      assert x in lh ==> x in Cached(b, lh);
    }
  }

  lemma StaysOnDisk(r: L.Region, d: D.Disk, d': D.Disk, home: Blocks)
    requires Shows(r, d, home) && d'.Keys == d.Keys && L.Home(r, d') == L.Home(r, d)
    ensures Shows(r, d', home)
  {
    forall x | x in home && !r.Contains(x) ensures d'[x] == d[x] {
      assert x in L.Home(r, d) && d'[x] == L.Home(r, d')[x];
    }
  }

  lemma NextDisk(sb: Super, r: L.Region, c: Config, e: Epoch)
    requires ConfigOk(sb, r, c) && EpochOk(sb, r, c, e)
    ensures var c' := NextConfig(r, c, e); Shows(r, c'.disk, c'.home) && L.LogEmpty(r, c'.disk)
  {
    hide Reflects, Shows, L.LogEmpty, Lists, L.Atomically, L.Home, AllBytes, Cached, Durable, L.Covers, L.Committing, L.CutTx, L.CommitTx, NextView;
    ReflectsFacts(sb, c.home, e.s, AppliedAll(c.v, e.done));
    InvBytes(sb, e.s);
    var t := TxOf(e);
    if e.crash {
      L.CutTxRefines(r, c.disk, t, e.at, e.recoveries);
      var d' := L.CutTx(r, c.disk, t, e.at, e.recoveries);
      if L.PastCommitPoint(e.lh, e.at) {
        LandsOnDisk(r, c.disk, d', c.home, e.s.b, e.s.l, e.lh);
      } else {
        StaysOnDisk(r, c.disk, d', c.home);
      }
    } else {
      L.CommitTxRefines(r, c.disk, t);
      LandsOnDisk(r, c.disk, L.CommitTx(r, c.disk, t), c.home, e.s.b, e.s.l, e.lh);
    }
  }

  /** A commit without a crash: the buffers live on, with the uncounted bytes in blocks that were not in the log. */
  lemma CommittedReflects(sb: Super, home: Blocks, s: State, v: View)
    requires Reflects(sb, home, s, v)
    ensures v.extra.Keys == v.files.Keys && Reflects(sb, Durable(home, s.b, s.l), s.(l := {}), View(Stained(s, v), Remaining(s, v)))
  {
    hide Inv, Synced, AddrAt, ByteAt, Bytes, Volatile, FileShown, OnDisk, StainedFile, InLog;
    ReflectsFacts(sb, home, s, v);
    DurableApart(sb, home, s);
    var home' := Durable(home, s.b, s.l);
    forall j | j in s.n ensures FileShown(home', s.(l := {}), j, Stained(s, v)[j], Remaining(s, v)[j]) {
      CommittedFile(sb, home, s, j, v.files[j], v.extra[j]);
    }
    CommittedApart(sb, home, s);
  }

  lemma CommittedApart(sb: Super, home: Blocks, s: State)
    requires Apart(sb, home, s) && AllBytes(Durable(home, s.b, s.l))
    ensures Apart(sb, Durable(home, s.b, s.l), s.(l := {}))
  {
    hide Bytes, Volatile;
    forall x | x in s.b && Durable(home, s.b, s.l)[x] != s.b[x] ensures Volatile(sb, s.u, x) { assert x !in s.l && home[x] != s.b[x]; }
  }

  lemma CommittedFile(sb: Super, home: Blocks, s: State, j: int, file: seq<int>, extra: map<int, int>)
    requires Inv(sb, s.b, s.n, s.u) && FileShown(home, s, j, file, extra) && home.Keys == s.b.Keys && AllBytes(home)
    requires forall k | IsSlot(s.n, j, k) :: AddrAt(Durable(home, s.b, s.l), s.n[j], k) == AddrAt(s.b, s.n[j], k)
    ensures FileShown(Durable(home, s.b, s.l), s.(l := {}), j, StainedFile(s, j, file, extra), map o | o in extra && !InLog(s, j, o) :: extra[o])
  {
    hide Inv, AddrAt, ByteAt, Bytes, Durable;
    var home', extra' := Durable(home, s.b, s.l), map o | o in extra && !InLog(s, j, o) :: extra[o];
    forall o | 0 <= o < |file| ensures ByteShown(home', s.(l := {}), j, o, StainedFile(s, j, file, extra), extra') {
      assert ByteShown(home, s, j, o, file, extra) && IsSlot(s.n, j, SlotOf(o / BSIZE));
      DurableByte(sb, home, s, j, o, file, extra);
      MappedByte(sb, s, j, o);
      DurableBlock(home, s, AddrAt(s.b, s.n[j], SlotOf(o / BSIZE)), j, o);
    }
  }

  lemma DurableBlock(home: Blocks, s: State, x: int, j: int, o: int)
    requires x in s.b && |s.b[x]| == BSIZE && home.Keys == s.b.Keys && AllBytes(home) && x != 0
    requires j in s.n && |s.n[j].addrs| == 13 && 0 <= o < MAXFILE * BSIZE && x == AddrAt(Durable(home, s.b, s.l), s.n[j], SlotOf(o / BSIZE))
    ensures var d := Durable(home, s.b, s.l); x in d && |d[x]| == BSIZE && ByteAt(d, s.n[j], o) == d[x][o % BSIZE]
  {
    hide AddrAt;
  }

  /** Every transaction, committed or crashed, leads from a good configuration to a good one. */
  lemma EpochKeeps(sb: Super, r: L.Region, c: Config, e: Epoch)
    requires ConfigOk(sb, r, c) && EpochOk(sb, r, c, e)
    ensures ConfigOk(sb, r, NextConfig(r, c, e))
  {
    hide Reflects, Shows, L.LogEmpty, Lists, L.TxOk, L.PastCommitPoint, Mounted, Stained, Durable, Remaining, NoExtra, Files, L.CutTx, L.CommitTx;
    NextDisk(sb, r, c, e);
    var v := AppliedAll(c.v, e.done);
    ReflectsFacts(sb, c.home, e.s, v);
    if !e.crash {
      CommittedReflects(sb, c.home, e.s, v);
    } else {
      if Lands(e) { DurableFiles(sb, c.home, e.s, v); } else { HomeFiles(sb, c.home, c.s, c.v); }
      var s := (if Lands(e) then e.s.(b := Durable(c.home, e.s.b, e.s.l)) else c.s.(b := c.home));
      Rebooted(sb, s);
    }
  }

  lemma Rebooted(sb: Super, s: State)
    requires Mounted(sb, s)
    ensures Reflects(sb, s.b, s.(l := {}), View(Files(s), NoExtra(Files(s).Keys)))
  {
    hide Inv, Synced, Reflects;
    Unlogged(sb, s);
    assert Files(s).Keys == s.n.Keys;
    Begin(sb, s.(l := {}));
  }

  // ---------------------------------------------------------------- whole runs

  ghost predicate RunOk(sb: Super, r: L.Region, c: Config, es: seq<Epoch>)
    requires ConfigOk(sb, r, c)
    decreases |es|
  {
    es == [] || (EpochOk(sb, r, c, es[0]) && (EpochKeeps(sb, r, c, es[0]); RunOk(sb, r, NextConfig(r, c, es[0]), es[1..])))
  }

  ghost function RunEnd(sb: Super, r: L.Region, c: Config, es: seq<Epoch>): Config
    requires ConfigOk(sb, r, c) && RunOk(sb, r, c, es)
    decreases |es|
  {
    if es == [] then c else EpochKeeps(sb, r, c, es[0]); RunEnd(sb, r, NextConfig(r, c, es[0]), es[1..])
  }

  /** The files after a run, from the views alone. */
  ghost function SpecRun(v: View, es: seq<Epoch>): View
    decreases |es|
  {
    if es == [] then v else SpecRun(NextView(v, es[0]), es[1..])
  }

  /** Operations one after the other, by their counts. */
  ghost function CountedAll(files: map<int, seq<int>>, h: seq<Done>): map<int, seq<int>> {
    if h == [] then files else Applied(CountedAll(files, h[..|h| - 1]), h[|h| - 1])
  }

  /** The files after a run, by the counts of the transactions that land. */
  ghost function CountedRun(files: map<int, seq<int>>, es: seq<Epoch>): map<int, seq<int>>
    decreases |es|
  {
    if es == [] then files else CountedRun(if Lands(es[0]) then CountedAll(files, es[0].done) else files, es[1..])
  }

  /** No transaction of the run that lands commits an uncounted byte that makes a difference. */
  ghost predicate CleanRun(v: View, es: seq<Epoch>)
    decreases |es|
  {
    es == [] ||
    var w := AppliedAll(v, es[0].done);
    && w.extra.Keys == w.files.Keys && (Lands(es[0]) ==> Clean(es[0].s, w)) && CleanRun(NextView(v, es[0]), es[1..])
  }

  /**
   * Whole runs: on the disk are the files that the transactions which reached their commit point
   * left, each in one step, in order, and nothing of the others.
   */
  lemma {:induction false} RunsKeepFiles(sb: Super, r: L.Region, c: Config, es: seq<Epoch>)
    requires ConfigOk(sb, r, c) && RunOk(sb, r, c, es)
    ensures var end := RunEnd(sb, r, c, es);
            ConfigOk(sb, r, end) && end.v == SpecRun(c.v, es) && Holds(sb, end.home, SpecRun(c.v, es).files)
    decreases |es|
  {
    hide Reflects, Shows, L.LogEmpty, L.TxOk, Lists, NextView, Holds;
    if es == [] {
      HomeFiles(sb, c.home, c.s, c.v);
    } else {
      EpochKeeps(sb, r, c, es[0]);
      RunsKeepFiles(sb, r, NextConfig(r, c, es[0]), es[1..]);
    }
  }

  /** ... and these are the files that writei()'s counts say, if no transaction commits a stain. */
  lemma {:induction false} CleanRunsCount(v: View, es: seq<Epoch>)
    requires CleanRun(v, es)
    ensures SpecRun(v, es).files == CountedRun(v.files, es)
    decreases |es|
  {
    hide Clean, Stained, Remaining, NoExtra;
    if es != [] {
      var w := AppliedAll(v, es[0].done);
      FilesByCounts(v, es[0].done);
      if Lands(es[0]) { CleanIff(es[0].s, w); }
      CleanRunsCount(NextView(v, es[0]), es[1..]);
    }
  }

  lemma {:induction false} FilesByCounts(v: View, h: seq<Done>)
    ensures AppliedAll(v, h).files == CountedAll(v.files, h)
  {
    hide Applied, Left;
    if h != [] { FilesByCounts(v, h[..|h| - 1]); }
  }
}
