/** Disk blocks and block writes, shared by the buffer cache and the log. */
module Blocks {
  /** A disk block, seen as the 32-bit words that a log header is made of. */
  datatype Block = Block(words: seq<int>)

  /** The disk: block number to contents. */
  type Disk = map<int, Block>

  /** One block write; a write is atomic with respect to a crash. */
  datatype Write = Write(blockno: int, data: Block)

  /** The disk after the first i of the given writes have reached it, in order. */
  ghost function After(d: Disk, ws: seq<Write>, i: nat): Disk
    requires i <= |ws|
  {
    if i == 0 then d else After(d, ws, i - 1)[ws[i - 1].blockno := ws[i - 1].data]
  }

  ghost function Apply(d: Disk, ws: seq<Write>): Disk {
    After(d, ws, |ws|)
  }
}

/**
 * Crash safety of the redo log (log.c), over sequences of atomic block writes.
 *
 * The writes that commit() and recover_from_log() issue are spelled out as CommitWrites and
 * RecoverWrites; module WriteAheadLog proves that the imperative code issues exactly those.
 * A crash keeps some prefix of them.
 */
module LogCrash {
  import opened Blocks
  import opened Params

  /** Where the log lives: the header block `start`, then size - 1 data blocks. */
  datatype Region = Region(start: int, size: int) {
    predicate Contains(b: int) {
      start <= b < start + size
    }
  }

  ghost predicate NoDup(s: seq<int>) {
    forall i, j :: 0 <= i < j < |s| ==> s[i] != s[j]
  }

  /** A header block: word 0 is n, words 1..n the block numbers, and n is within bounds. */
  predicate IsHeader(b: Block) {
    |b.words| > LOGSIZE && 0 <= b.words[0] <= LOGSIZE
  }

  /** The block numbers that read_head finds in a header block. */
  function Header(b: Block): seq<int>
    requires IsHeader(b)
  {
    b.words[1..1 + b.words[0]]
  }

  /** write_head overwrites n and the first n entries and leaves the stale rest alone. */
  function SetHeader(b: Block, lh: seq<int>): Block
    requires |lh| <= LOGSIZE < |b.words|
  {
    Block([|lh|] + lh + b.words[1 + |lh|..])
  }

  lemma HeaderRoundTrip(b: Block, lh: seq<int>)
    requires |lh| <= LOGSIZE < |b.words|
    ensures IsHeader(SetHeader(b, lh)) && Header(SetHeader(b, lh)) == lh
  {
    assert SetHeader(b, lh).words[1..1 + |lh|] == lh;
  }

  /** The disk has the log region. */
  ghost predicate LayoutOk(r: Region, d: Disk) {
    && r.size >= 1 && r.start >= 0
    && (forall b | r.start <= b < r.start + r.size :: b in d)
  }

  /** ... and `lh` names distinct home blocks that fit in the log. */
  ghost predicate Loggable(r: Region, d: Disk, lh: seq<int>) {
    && LayoutOk(r, d)
    && |lh| <= LOGSIZE
    && |lh| <= r.size - 1
    && NoDup(lh)
    && (forall i | 0 <= i < |lh| :: lh[i] in d && !r.Contains(lh[i]))
  }

  lemma OneMore(r: Region, d: Disk, lh: seq<int>, b: int)
    requires Loggable(r, d, lh) && |lh| < LOGSIZE && |lh| < r.size - 1
    requires b !in lh && b in d && !r.Contains(b)
    ensures Loggable(r, d, lh + [b])
  {
  }

  ghost predicate DiskOk(r: Region, d: Disk) {
    LayoutOk(r, d) && IsHeader(d[r.start]) && Loggable(r, d, Header(d[r.start]))
  }

  ghost predicate LogEmpty(r: Region, d: Disk) {
    LayoutOk(r, d) && IsHeader(d[r.start]) && Header(d[r.start]) == []
  }

  /** The blocks outside the log, as they are on the disk. */
  ghost function Home(r: Region, d: Disk): map<int, Block> {
    map b | b in d && !r.Contains(b) :: d[b]
  }

  /** What the disk stands for: a block named in the header is worth its copy in the log. */
  ghost function Logical(r: Region, d: Disk): map<int, Block>
    requires DiskOk(r, d)
  {
    map b | b in d && !r.Contains(b) :: LogicalAt(r, d, b)
  }

  ghost function LogicalAt(r: Region, d: Disk, b: int): Block
    requires DiskOk(r, d) && b in d
  {
    var lh := Header(d[r.start]);
    if b in lh then var k :| 0 <= k < |lh| && lh[k] == b; LogBlock(r, d, k) else d[b]
  }

  ghost function LogBlock(r: Region, d: Disk, k: nat): Block
    requires r.start + 1 + k in d
  {
    d[r.start + 1 + k]
  }

  lemma LogicalNamed(r: Region, d: Disk, k: nat)
    requires DiskOk(r, d) && k < |Header(d[r.start])|
    ensures LogicalAt(r, d, Header(d[r.start])[k]) == LogBlock(r, d, k)
  {
  }

  lemma LogicalOfEmpty(r: Region, d: Disk)
    requires LogEmpty(r, d)
    ensures DiskOk(r, d) && Logical(r, d) == Home(r, d)
  {
  }

  /** Home blocks with the transaction's updates applied. */
  ghost function Updated(r: Region, d: Disk, lh: seq<int>, v: map<int, Block>): map<int, Block>
    requires Covers(v, lh)
  {
    map b | b in d && !r.Contains(b) :: if b in lh then v[b] else d[b]
  }

  // ---------------------------------------------------------------- the writes issued

  ghost predicate Covers(v: map<int, Block>, lh: seq<int>) {
    forall i | 0 <= i < |lh| :: lh[i] in v
  }

  /** The i-th block write of commit(): log blocks, header, home blocks, cleared header. */
  ghost function CommitWrite(r: Region, hdr: Block, lh: seq<int>, v: map<int, Block>, i: nat): Write
    requires |lh| <= LOGSIZE < |hdr.words| && Covers(v, lh)
  {
    var n := |lh|;
    if i < n then Write(r.start + 1 + i, v[lh[i]])
    else if i == n then Write(r.start, SetHeader(hdr, lh))
    else if i <= 2 * n then Write(lh[i - n - 1], v[lh[i - n - 1]])
    else Write(r.start, SetHeader(SetHeader(hdr, lh), []))
  }

  /** All block writes of commit(); an empty transaction writes nothing. */
  ghost function CommitWrites(r: Region, hdr: Block, lh: seq<int>, v: map<int, Block>): seq<Write>
    requires |lh| <= LOGSIZE < |hdr.words| && Covers(v, lh)
  {
    if lh == [] then [] else
    seq(2 * |lh| + 2, i requires 0 <= i < 2 * |lh| + 2 => CommitWrite(r, hdr, lh, v, i))
  }

  /** The contents that recovery copies home, read from the log blocks of disk d. */
  ghost function Logged(r: Region, d: Disk): map<int, Block>
    requires DiskOk(r, d)
  {
    var lh := Header(d[r.start]);
    map b | b in lh :: LogicalAt(r, d, b)
  }

  /** Copy v home for every block in lh, then clear the header hdr. */
  ghost function InstallAndClear(r: Region, hdr: Block, lh: seq<int>, v: map<int, Block>): seq<Write>
    requires |hdr.words| > LOGSIZE && Covers(v, lh)
  {
    seq(|lh| + 1, i requires 0 <= i < |lh| + 1 =>
      if i < |lh| then Write(lh[i], v[lh[i]]) else Write(r.start, SetHeader(hdr, [])))
  }

  /** The block writes of recover_from_log(), started on disk d. */
  ghost function RecoverWrites(r: Region, d: Disk): seq<Write>
    requires DiskOk(r, d)
  {
    InstallAndClear(r, d[r.start], Header(d[r.start]), Logged(r, d))
  }

  // ---------------------------------------------------------------- one write at a time

  /** The header of d is lh, the log holds v[lh[..]], and home is h with lh[..k] installed. */
  ghost predicate Installing(r: Region, d: Disk, lh: seq<int>, v: map<int, Block>, h: Disk, k: nat)
    requires Loggable(r, h, lh) && Covers(v, lh)
  {
    && d.Keys == h.Keys
    && IsHeader(d[r.start]) && Header(d[r.start]) == lh
    && (forall i | 0 <= i < |lh| :: LogBlock(r, d, i) == v[lh[i]])
    && (forall b | b in d && !r.Contains(b) && b !in lh :: d[b] == h[b])
    && (forall i | 0 <= i < k && i < |lh| :: d[lh[i]] == v[lh[i]])
  }

  lemma InstallingLogical(r: Region, d: Disk, lh: seq<int>, v: map<int, Block>, h: Disk, k: nat)
    requires Loggable(r, h, lh) && Covers(v, lh) && Installing(r, d, lh, v, h, k)
    ensures DiskOk(r, d) && Logical(r, d) == Updated(r, h, lh, v)
  {
    forall b | b in d && !r.Contains(b)
      ensures LogicalAt(r, d, b) == if b in lh then v[b] else h[b]
    {
      if b in lh {
        var k :| 0 <= k < |lh| && lh[k] == b;
        LogicalNamed(r, d, k);
      }
    }
  }

  lemma InstallStep(r: Region, d: Disk, lh: seq<int>, v: map<int, Block>, h: Disk, k: nat)
    requires Loggable(r, h, lh) && Covers(v, lh) && Installing(r, d, lh, v, h, k) && k < |lh|
    ensures Installing(r, d[lh[k] := v[lh[k]]], lh, v, h, k + 1)
    ensures d[lh[k] := v[lh[k]]][r.start] == d[r.start]
  {
    var d' := d[lh[k] := v[lh[k]]];
    assert forall b | r.Contains(b) :: d'[b] == d[b];
    assert r.Contains(r.start);
    assert forall i | 0 <= i < |lh| :: LogBlock(r, d', i) == LogBlock(r, d, i);
  }

  lemma ClearStep(r: Region, d: Disk, lh: seq<int>, v: map<int, Block>, h: Disk)
    requires Loggable(r, h, lh) && Covers(v, lh) && Installing(r, d, lh, v, h, |lh|)
    ensures var d' := d[r.start := SetHeader(d[r.start], [])];
            LogEmpty(r, d') && d'.Keys == d.Keys && Home(r, d') == Updated(r, h, lh, v)
  {
    assert r.Contains(r.start);
    var d' := d[r.start := SetHeader(d[r.start], [])];
    assert d'.Keys == d.Keys;
    forall b | b in d' && !r.Contains(b)
      ensures d'[b] == if b in lh then v[b] else h[b]
    {
      if b in lh {
        var i :| 0 <= i < |lh| && lh[i] == b;
      }
    }
  }

  // ---------------------------------------------------------------- recovery

  /** Home blocks lh[..j] overwritten by their contents in v. */
  ghost function Installed(d: Disk, lh: seq<int>, v: map<int, Block>, j: nat): Disk
    requires j <= |lh| && Covers(v, lh)
  {
    if j == 0 then d else Installed(d, lh, v, j - 1)[lh[j - 1] := v[lh[j - 1]]]
  }

  /** The disk left when recovery stops after j block writes; writes past the last change nothing. */
  ghost function Recovering(r: Region, d: Disk, j: nat): Disk
    requires DiskOk(r, d)
  {
    var lh, v := Header(d[r.start]), Logged(r, d);
    if j <= |lh| then Installed(d, lh, v, j)
    else Installed(d, lh, v, |lh|)[r.start := SetHeader(d[r.start], [])]
  }

  lemma {:induction false} InstalledIsPrefix(r: Region, d: Disk, hdr: Block, lh: seq<int>, v: map<int, Block>, j: nat)
    requires j <= |lh| && |hdr.words| > LOGSIZE && Covers(v, lh)
    ensures Installed(d, lh, v, j) == After(d, InstallAndClear(r, hdr, lh, v), j)
  {
    if j > 0 { InstalledIsPrefix(r, d, hdr, lh, v, j - 1); }
  }

  lemma ClearedIsPrefix(r: Region, d: Disk, hdr: Block, lh: seq<int>, v: map<int, Block>)
    requires |hdr.words| > LOGSIZE && Covers(v, lh)
    ensures Installed(d, lh, v, |lh|)[r.start := SetHeader(hdr, [])]
            == After(d, InstallAndClear(r, hdr, lh, v), |lh| + 1)
  {
    InstalledIsPrefix(r, d, hdr, lh, v, |lh|);
  }

  /** Recovering is what is on the disk after the first j of the recovery's writes. */
  lemma RecoveringIsPrefix(r: Region, d: Disk, j: nat)
    requires DiskOk(r, d) && j <= |RecoverWrites(r, d)|
    ensures Recovering(r, d, j) == After(d, RecoverWrites(r, d), j)
  {
    var lh, v := Header(d[r.start]), Logged(r, d);
    if j <= |lh| {
      InstalledIsPrefix(r, d, d[r.start], lh, v, j);
    } else {
      ClearedIsPrefix(r, d, d[r.start], lh, v);
    }
  }

  lemma {:induction false} InstalledInstalling(r: Region, d: Disk, lh: seq<int>, v: map<int, Block>, j: nat)
    requires Loggable(r, d, lh) && Covers(v, lh) && Installing(r, d, lh, v, d, 0) && j <= |lh|
    ensures var e := Installed(d, lh, v, j);
            Installing(r, e, lh, v, d, j) && e[r.start] == d[r.start]
  {
    hide Header, IsHeader, LogBlock, NoDup;
    if j > 0 {
      InstalledInstalling(r, d, lh, v, j - 1);
      InstallStep(r, Installed(d, lh, v, j - 1), lh, v, d, j - 1);
    }
  }

  lemma RecoveryStarts(r: Region, d: Disk)
    requires DiskOk(r, d)
    ensures Installing(r, d, Header(d[r.start]), Logged(r, d), d, 0)
  {
    var lh, v := Header(d[r.start]), Logged(r, d);
    forall i | 0 <= i < |lh| ensures lh[i] in v && LogBlock(r, d, i) == v[lh[i]] {
      LogicalNamed(r, d, i);
    }
  }

  lemma RecoveryInstalling(r: Region, d: Disk, j: nat)
    requires DiskOk(r, d) && j <= |Header(d[r.start])|
    ensures var e := Recovering(r, d, j);
            Installing(r, e, Header(d[r.start]), Logged(r, d), d, j) && e[r.start] == d[r.start]
  {
    RecoveryStarts(r, d);
    InstalledInstalling(r, d, Header(d[r.start]), Logged(r, d), j);
  }

  /** The next write of a recovery, in the list of writes and in terms of the disk it finds. */
  lemma RecoverNext(r: Region, d: Disk, j: nat)
    requires DiskOk(r, d) && j <= |Header(d[r.start])|
    ensures var lh, ws, e := Header(d[r.start]), RecoverWrites(r, d), Recovering(r, d, j);
            && |ws| == |lh| + 1 && ws[..j + 1] == ws[..j] + [ws[j]]
            && Recovering(r, d, j + 1) == e[ws[j].blockno := ws[j].data]
            && e.Keys == d.Keys && e[r.start] == d[r.start]
            && (j < |lh| ==> r.start + 1 + j in e && ws[j] == Write(lh[j], e[r.start + 1 + j]))
            && (j == |lh| ==> ws[j] == Write(r.start, SetHeader(e[r.start], [])))
  {
    var e, lh := Recovering(r, d, j), Header(d[r.start]);
    RecoverySource(r, d, j);
    assert RecoverWrites(r, d)[j] == if j < |lh| then Write(lh[j], Logged(r, d)[lh[j]]) else Write(r.start, SetHeader(d[r.start], []));
  }

  lemma RecoverySource(r: Region, d: Disk, j: nat)
    requires DiskOk(r, d) && j <= |Header(d[r.start])|
    ensures var lh, e := Header(d[r.start]), Recovering(r, d, j);
            && e.Keys == d.Keys && e[r.start] == d[r.start]
            && (j < |lh| ==> r.start + 1 + j in e && e[r.start + 1 + j] == Logged(r, d)[lh[j]])
  {
    hide Recovering, Header, IsHeader, NoDup;
    RecoveryInstalling(r, d, j);
    var e, lh := Recovering(r, d, j), Header(d[r.start]);
    if j < |lh| { assert LogBlock(r, e, j) == Logged(r, d)[lh[j]]; }
  }

  ghost function Recovered(r: Region, d: Disk): Disk
    requires DiskOk(r, d)
  {
    Recovering(r, d, |RecoverWrites(r, d)|)
  }

  lemma RecoveryStart(r: Region, d: Disk)
    requires DiskOk(r, d)
    ensures Logical(r, d) == Updated(r, d, Header(d[r.start]), Logged(r, d))
  {
    RecoveryStarts(r, d);
    InstallingLogical(r, d, Header(d[r.start]), Logged(r, d), d, 0);
  }

  lemma RecoveryCompletes(r: Region, d: Disk, j: nat)
    requires DiskOk(r, d) && j >= |RecoverWrites(r, d)|
    ensures var d' := Recovering(r, d, j);
            LogEmpty(r, d') && d'.Keys == d.Keys && Home(r, d') == Logical(r, d)
  {
    var lh, v := Header(d[r.start]), Logged(r, d);
    RecoveryStart(r, d);
    RecoveryInstalling(r, d, |lh|);
    ClearStep(r, Recovering(r, d, |lh|), lh, v, d);
    assert Recovering(r, d, j) == Recovering(r, d, |lh| + 1);
  }

  /** All the writes of a recovery leave an empty log. */
  lemma RecoverEffect(r: Region, d: Disk)
    requires DiskOk(r, d)
    ensures var e, ws := Recovered(r, d), RecoverWrites(r, d);
            && |ws| == |Header(d[r.start])| + 1 && ws[..|ws|] == ws && e == Apply(d, ws)
            && LogEmpty(r, e) && Loggable(r, e, []) && Home(r, e) == Logical(r, d)
  {
    RecoveringIsPrefix(r, d, |RecoverWrites(r, d)|);
    RecoveryCompletes(r, d, |RecoverWrites(r, d)|);
  }

  /** Recovery may stop anywhere: what the disk stands for does not change. */
  lemma RecoveryPreserves(r: Region, d: Disk, j: nat)
    requires DiskOk(r, d)
    ensures var d' := Recovering(r, d, j);
            DiskOk(r, d') && d'.Keys == d.Keys && Logical(r, d') == Logical(r, d)
  {
    if j < |RecoverWrites(r, d)| {
      RecoveryStart(r, d);
      RecoveryInstalling(r, d, j);
      InstallingLogical(r, Recovering(r, d, j), Header(d[r.start]), Logged(r, d), d, j);
    } else {
      RecoveryCompletes(r, d, j);
      LogicalOfEmpty(r, Recovering(r, d, j));
    }
  }

  /** Any number of recoveries, each cut short after the given number of writes. */
  ghost function CrashedRecoveries(r: Region, d: Disk, js: seq<nat>): (d': Disk)
    requires DiskOk(r, d)
    ensures DiskOk(r, d') && d'.Keys == d.Keys && Logical(r, d') == Logical(r, d)
    decreases |js|
  {
    if js == [] then d else
    RecoveryPreserves(r, d, js[0]);
    CrashedRecoveries(r, Recovering(r, d, js[0]), js[1..])
  }

  // ---------------------------------------------------------------- commit

  /** The transaction that commit() is given: what it logs and where, on a disk with an empty log. */
  ghost predicate Committable(r: Region, d: Disk, lh: seq<int>, v: map<int, Block>) {
    Loggable(r, d, lh) && LogEmpty(r, d) && lh != [] && Covers(v, lh)
  }

  /** The header still says "empty", home is h's, and the first k log blocks are written. */
  ghost predicate Logging(r: Region, d: Disk, lh: seq<int>, v: map<int, Block>, h: Disk, k: nat)
    requires Committable(r, h, lh, v)
  {
    && d.Keys == h.Keys
    && d[r.start] == h[r.start]
    && (forall b | b in d && !r.Contains(b) :: d[b] == h[b])
    && (forall i | 0 <= i < k && i < |lh| :: LogBlock(r, d, i) == v[lh[i]])
  }

  /** The disk after the first i block writes of commit(). */
  ghost function Committing(r: Region, d: Disk, lh: seq<int>, v: map<int, Block>, i: nat): Disk
    requires Committable(r, d, lh, v)
  {
    if i == 0 then d else
    var w := CommitWrite(r, d[r.start], lh, v, i - 1);
    Committing(r, d, lh, v, i - 1)[w.blockno := w.data]
  }

  lemma {:induction false} CommittingIsPrefix(r: Region, d: Disk, lh: seq<int>, v: map<int, Block>, i: nat)
    requires Committable(r, d, lh, v) && i <= |CommitWrites(r, d[r.start], lh, v)|
    ensures Committing(r, d, lh, v, i) == After(d, CommitWrites(r, d[r.start], lh, v), i)
  {
    if i > 0 { CommittingIsPrefix(r, d, lh, v, i - 1); }
  }

  lemma LogStep(r: Region, d: Disk, lh: seq<int>, v: map<int, Block>, h: Disk, k: nat)
    requires Committable(r, h, lh, v) && Logging(r, d, lh, v, h, k) && k < |lh|
    ensures Logging(r, d[r.start + 1 + k := v[lh[k]]], lh, v, h, k + 1)
  {
    assert r.Contains(r.start) && r.Contains(r.start + 1 + k);
    var d' := d[r.start + 1 + k := v[lh[k]]];
    assert d'.Keys == d.Keys;
    forall i | 0 <= i < k + 1 ensures LogBlock(r, d', i) == v[lh[i]] {
      if i < k { assert LogBlock(r, d, i) == v[lh[i]]; }
    }
  }

  lemma HeaderStep(r: Region, d: Disk, lh: seq<int>, v: map<int, Block>, h: Disk)
    requires Committable(r, h, lh, v) && Logging(r, d, lh, v, h, |lh|)
    ensures Installing(r, d[r.start := SetHeader(h[r.start], lh)], lh, v, h, 0)
  {
    var d' := d[r.start := SetHeader(h[r.start], lh)];
    assert r.Contains(r.start);
    assert d'.Keys == d.Keys;
    HeaderRoundTrip(h[r.start], lh);
    forall k | 0 <= k < |lh| ensures LogBlock(r, d', k) == v[lh[k]] {
      assert LogBlock(r, d, k) == v[lh[k]];
    }
  }

  lemma {:induction false} CommitLogging(r: Region, d: Disk, lh: seq<int>, v: map<int, Block>, i: nat)
    requires Committable(r, d, lh, v) && i <= |lh|
    ensures Logging(r, Committing(r, d, lh, v, i), lh, v, d, i)
  {
    if i == 0 {
      assert r.Contains(r.start);
    } else {
      CommitLogging(r, d, lh, v, i - 1);
      LogStep(r, Committing(r, d, lh, v, i - 1), lh, v, d, i - 1);
    }
  }

  lemma CommitPoint(r: Region, d: Disk, lh: seq<int>, v: map<int, Block>)
    requires Committable(r, d, lh, v)
    ensures var e := Committing(r, d, lh, v, |lh| + 1);
            Installing(r, e, lh, v, d, 0) && e[r.start] == SetHeader(d[r.start], lh)
  {
    CommitLogging(r, d, lh, v, |lh|);
    HeaderStep(r, Committing(r, d, lh, v, |lh|), lh, v, d);
  }

  lemma {:induction false} CommitInstalling(r: Region, d: Disk, lh: seq<int>, v: map<int, Block>, k: nat)
    requires Committable(r, d, lh, v) && k <= |lh|
    ensures var e := Committing(r, d, lh, v, |lh| + 1 + k);
            Installing(r, e, lh, v, d, k) && e[r.start] == SetHeader(d[r.start], lh)
  {
    hide Header, IsHeader, LogBlock, NoDup, SetHeader;
    if k == 0 {
      CommitPoint(r, d, lh, v);
    } else {
      CommitInstalling(r, d, lh, v, k - 1);
      InstallStep(r, Committing(r, d, lh, v, |lh| + k), lh, v, d, k - 1);
    }
  }

  lemma CommitDone(r: Region, d: Disk, lh: seq<int>, v: map<int, Block>)
    requires Committable(r, d, lh, v)
    ensures var e := Committing(r, d, lh, v, 2 * |lh| + 2);
            LogEmpty(r, e) && e.Keys == d.Keys && Home(r, e) == Updated(r, d, lh, v)
  {
    CommitInstalling(r, d, lh, v, |lh|);
    ClearStep(r, Committing(r, d, lh, v, 2 * |lh| + 1), lh, v, d);
  }

  /** The next write of a commit, in the list of writes and on the disk. */
  lemma CommitNext(r: Region, d: Disk, lh: seq<int>, v: map<int, Block>, i: nat)
    requires Committable(r, d, lh, v) && i < 2 * |lh| + 2
    ensures var x, ws := CommitWrite(r, d[r.start], lh, v, i), CommitWrites(r, d[r.start], lh, v);
            && Committing(r, d, lh, v, i + 1) == Committing(r, d, lh, v, i)[x.blockno := x.data]
            && |ws| == 2 * |lh| + 2 && ws[..i + 1] == ws[..i] + [x]
  {
  }

  /** While home blocks are installed, the log still holds what was logged. */
  lemma LoggedDuringInstall(r: Region, d: Disk, lh: seq<int>, v: map<int, Block>, k: nat)
    requires Committable(r, d, lh, v) && k < |lh|
    ensures var e := Committing(r, d, lh, v, |lh| + 1 + k);
            r.start + 1 + k in e && e[r.start + 1 + k] == v[lh[k]]
  {
    hide Header, IsHeader, NoDup, SetHeader, Committing;
    CommitInstalling(r, d, lh, v, k);
    assert LogBlock(r, Committing(r, d, lh, v, |lh| + 1 + k), k) == v[lh[k]];
  }

  /** All the writes of a commit leave an empty log and the updated home blocks. */
  lemma CommitEffect(r: Region, d: Disk, lh: seq<int>, v: map<int, Block>)
    requires Committable(r, d, lh, v)
    ensures var e, ws := Committing(r, d, lh, v, 2 * |lh| + 2), CommitWrites(r, d[r.start], lh, v);
            && e == Apply(d, ws) && ws[..2 * |lh| + 2] == ws
            && LogEmpty(r, e) && Loggable(r, e, []) && e.Keys == d.Keys && Home(r, e) == Updated(r, d, lh, v)
  {
    CommitDone(r, d, lh, v);
    CommittingIsPrefix(r, d, lh, v, 2 * |lh| + 2);
  }

  /** Whether a crash after i block writes of commit() falls after the commit point. */
  predicate PastCommitPoint(lh: seq<int>, i: nat) {
    i > |lh|
  }

  /** What disk e, reached from d, stands for: all of the transaction or none of it. */
  ghost predicate StandsFor(r: Region, e: Disk, d: Disk, h: map<int, Block>) {
    DiskOk(r, e) && e.Keys == d.Keys && Logical(r, e) == h
  }

  lemma LoggingStandsFor(r: Region, d: Disk, lh: seq<int>, v: map<int, Block>, i: nat)
    requires Committable(r, d, lh, v) && i <= |lh|
    ensures StandsFor(r, Committing(r, d, lh, v, i), d, Home(r, d))
  {
    CommitLogging(r, d, lh, v, i);
    LogicalOfEmpty(r, Committing(r, d, lh, v, i));
  }

  lemma InstallingStandsFor(r: Region, d: Disk, lh: seq<int>, v: map<int, Block>, k: nat)
    requires Committable(r, d, lh, v) && k <= |lh|
    ensures StandsFor(r, Committing(r, d, lh, v, |lh| + 1 + k), d, Updated(r, d, lh, v))
  {
    CommitInstalling(r, d, lh, v, k);
    InstallingLogical(r, Committing(r, d, lh, v, |lh| + 1 + k), lh, v, d, k);
  }

  lemma DoneStandsFor(r: Region, d: Disk, lh: seq<int>, v: map<int, Block>)
    requires Committable(r, d, lh, v)
    ensures StandsFor(r, Committing(r, d, lh, v, 2 * |lh| + 2), d, Updated(r, d, lh, v))
  {
    CommitDone(r, d, lh, v);
    LogicalOfEmpty(r, Committing(r, d, lh, v, 2 * |lh| + 2));
  }

  /** Every intermediate disk of commit() stands for all of the transaction or none of it. */
  lemma CommitPrefixLogical(r: Region, d: Disk, lh: seq<int>, v: map<int, Block>, i: nat)
    requires Committable(r, d, lh, v) && i <= 2 * |lh| + 2
    ensures StandsFor(r, Committing(r, d, lh, v, i), d,
                      if PastCommitPoint(lh, i) then Updated(r, d, lh, v) else Home(r, d))
  {
    if i <= |lh| {
      LoggingStandsFor(r, d, lh, v, i);
    } else if i <= 2 * |lh| + 1 {
      InstallingStandsFor(r, d, lh, v, i - |lh| - 1);
      assert |lh| + 1 + (i - |lh| - 1) == i;
    } else {
      DoneStandsFor(r, d, lh, v);
    }
  }

  /** No write up to and including the commit point touches a home block. */
  lemma HomeUntouchedBeforeCommit(r: Region, d: Disk, lh: seq<int>, v: map<int, Block>, i: nat)
    requires Committable(r, d, lh, v) && i <= |lh| + 1
    ensures Home(r, Committing(r, d, lh, v, i)) == Home(r, d)
  {
    if i <= |lh| {
      CommitLogging(r, d, lh, v, i);
    } else {
      CommitLogging(r, d, lh, v, |lh|);
      assert r.Contains(r.start);
    }
  }

  /**
   * Crash atomicity.  Commit is cut after i block writes, then recovery is cut any number of
   * times, then one recovery completes: home is the old contents or the transaction's, and
   * which of the two depends only on whether the non-empty header was written.
   */
  lemma CrashAtomicity(r: Region, d: Disk, lh: seq<int>, v: map<int, Block>, i: nat, js: seq<nat>)
    requires Committable(r, d, lh, v) && i <= 2 * |lh| + 2
    ensures DiskOk(r, Committing(r, d, lh, v, i))
    ensures var f := Recovered(r, CrashedRecoveries(r, Committing(r, d, lh, v, i), js));
            && LogEmpty(r, f) && f.Keys == d.Keys
            && Home(r, f) == if PastCommitPoint(lh, i) then Updated(r, d, lh, v) else Home(r, d)
  {
    CommitPrefixLogical(r, d, lh, v, i);
    var e := CrashedRecoveries(r, Committing(r, d, lh, v, i), js);
    RecoveryCompletes(r, e, |RecoverWrites(r, e)|);
  }

  /** A disk of n zeroed blocks, as mkfs starts with. */
  function Zeroed(n: nat): (d: Disk)
    ensures forall b :: b in d <==> 0 <= b < n
    ensures forall b | b in d :: |d[b].words| == 256 && forall i | 0 <= i < 256 :: d[b].words[i] == 0
  {
    if n == 0 then map[] else Zeroed(n - 1)[n - 1 := Block(seq(256, i => 0))]
  }

  /** A zeroed disk has an empty log, and any few distinct home blocks can be committed on it. */
  lemma ZeroedIsReady(r: Region, n: nat, lh: seq<int>, v: map<int, Block>)
    requires 0 <= r.start && 1 <= r.size && r.start + r.size <= n
    requires lh != [] && NoDup(lh) && |lh| <= LOGSIZE && |lh| <= r.size - 1 && Covers(v, lh)
    requires forall i | 0 <= i < |lh| :: 0 <= lh[i] < n && !r.Contains(lh[i])
    ensures LogEmpty(r, Zeroed(n)) && Committable(r, Zeroed(n), lh, v)
  {
    hide Zeroed;
    var hdr := Zeroed(n)[r.start];
    assert hdr.words[1..1 + hdr.words[0]] == [];
  }

  // ---------------------------------------------------------------- whole runs

  /** A transaction: block numbers logged, and their new contents. */
  datatype Tx = Tx(lh: seq<int>, v: map<int, Block>)

  /** A boot: transactions that commit fully, maybe one cut after `at` writes, crashed recoveries. */
  datatype Boot = Boot(done: seq<Tx>, cut: Tx, at: nat, recoveries: seq<nat>)

  ghost predicate TxOk(r: Region, d: Disk, t: Tx) {
    Loggable(r, d, t.lh) && t.lh != [] && Covers(t.v, t.lh)
  }

  ghost predicate BootOk(r: Region, d: Disk, b: Boot) {
    TxOk(r, d, b.cut) && b.at <= 2 * |b.cut.lh| + 2 && forall i | 0 <= i < |b.done| :: TxOk(r, d, b.done[i])
  }

  lemma TxOkKeys(r: Region, d: Disk, e: Disk, t: Tx)
    requires d.Keys == e.Keys && TxOk(r, d, t)
    ensures TxOk(r, e, t)
  {
    assert forall b :: b in d <==> b in e;
  }

  lemma TxsOkKeys(r: Region, d: Disk, e: Disk, txs: seq<Tx>)
    requires d.Keys == e.Keys && forall i | 0 <= i < |txs| :: TxOk(r, d, txs[i])
    ensures forall i | 0 <= i < |txs| :: TxOk(r, e, txs[i])
  {
    forall i | 0 <= i < |txs| ensures TxOk(r, e, txs[i]) { TxOkKeys(r, d, e, txs[i]); }
  }

  /** One whole commit(). */
  ghost function CommitTx(r: Region, d: Disk, t: Tx): (d': Disk)
    requires LogEmpty(r, d) && TxOk(r, d, t)
    ensures LogEmpty(r, d') && d'.Keys == d.Keys
  {
    CommitDone(r, d, t.lh, t.v);
    Committing(r, d, t.lh, t.v, 2 * |t.lh| + 2)
  }

  /** A commit() cut after `at` writes, crashed recoveries, and a recovery that completes. */
  ghost function CutTx(r: Region, d: Disk, t: Tx, at: nat, js: seq<nat>): (d': Disk)
    requires LogEmpty(r, d) && TxOk(r, d, t) && at <= 2 * |t.lh| + 2
    ensures LogEmpty(r, d') && d'.Keys == d.Keys
  {
    CrashAtomicity(r, d, t.lh, t.v, at, js);
    Recovered(r, CrashedRecoveries(r, Committing(r, d, t.lh, t.v, at), js))
  }

  /** Completed transactions, one after the other. */
  ghost function CommitAll(r: Region, d: Disk, txs: seq<Tx>): (d': Disk)
    requires LogEmpty(r, d) && forall i | 0 <= i < |txs| :: TxOk(r, d, txs[i])
    ensures LogEmpty(r, d') && d'.Keys == d.Keys
    decreases |txs|
  {
    if txs == [] then d else
    var e := CommitTx(r, d, txs[0]);
    TxsOkKeys(r, d, e, txs);
    CommitAll(r, e, txs[1..])
  }

  /** The disk after a boot that ends in a crash and a completed recovery. */
  ghost function RunBoot(r: Region, d: Disk, b: Boot): (d': Disk)
    requires LogEmpty(r, d) && BootOk(r, d, b)
    ensures LogEmpty(r, d') && d'.Keys == d.Keys
  {
    var e := CommitAll(r, d, b.done);
    TxOkKeys(r, d, e, b.cut);
    CutTx(r, e, b.cut, b.at, b.recoveries)
  }

  /** The specification: a store of blocks to which a transaction is applied in one step. */
  ghost function Atomically(h: map<int, Block>, t: Tx): map<int, Block>
    requires Covers(t.v, t.lh)
  {
    map b | b in h :: if b in t.lh then t.v[b] else h[b]
  }

  ghost function SpecAll(h: map<int, Block>, txs: seq<Tx>): map<int, Block>
    requires forall k | 0 <= k < |txs| :: Covers(txs[k].v, txs[k].lh)
    decreases |txs|
  {
    if txs == [] then h else SpecAll(Atomically(h, txs[0]), txs[1..])
  }

  ghost function SpecBoot(r: Region, d: Disk, h: map<int, Block>, b: Boot): map<int, Block>
    requires BootOk(r, d, b)
  {
    var e := SpecAll(h, b.done);
    if PastCommitPoint(b.cut.lh, b.at) then Atomically(e, b.cut) else e
  }

  lemma UpdatedIsAtomic(r: Region, d: Disk, t: Tx)
    requires Covers(t.v, t.lh)
    ensures Updated(r, d, t.lh, t.v) == Atomically(Home(r, d), t)
  {
  }

  lemma CommitTxRefines(r: Region, d: Disk, t: Tx)
    requires LogEmpty(r, d) && TxOk(r, d, t)
    ensures Home(r, CommitTx(r, d, t)) == Atomically(Home(r, d), t)
  {
    CommitDone(r, d, t.lh, t.v);
    UpdatedIsAtomic(r, d, t);
  }

  lemma CutTxRefines(r: Region, d: Disk, t: Tx, at: nat, js: seq<nat>)
    requires LogEmpty(r, d) && TxOk(r, d, t) && at <= 2 * |t.lh| + 2
    ensures Home(r, CutTx(r, d, t, at, js))
            == if PastCommitPoint(t.lh, at) then Atomically(Home(r, d), t) else Home(r, d)
  {
    CrashAtomicity(r, d, t.lh, t.v, at, js);
    UpdatedIsAtomic(r, d, t);
  }

  lemma {:induction false} CommitAllRefines(r: Region, d: Disk, txs: seq<Tx>)
    requires LogEmpty(r, d) && forall i | 0 <= i < |txs| :: TxOk(r, d, txs[i])
    ensures Home(r, CommitAll(r, d, txs)) == SpecAll(Home(r, d), txs)
    decreases |txs|
  {
    if txs != [] {
      var e := CommitTx(r, d, txs[0]);
      CommitTxRefines(r, d, txs[0]);
      TxsOkKeys(r, d, e, txs);
      CommitAllRefines(r, e, txs[1..]);
    }
  }

  lemma BootOkKeys(r: Region, d: Disk, e: Disk, b: Boot)
    requires d.Keys == e.Keys && BootOk(r, d, b)
    ensures BootOk(r, e, b)
  {
    TxOkKeys(r, d, e, b.cut);
    TxsOkKeys(r, d, e, b.done);
  }

  lemma BootRefines(r: Region, d: Disk, b: Boot)
    requires LogEmpty(r, d) && BootOk(r, d, b)
    ensures Home(r, RunBoot(r, d, b)) == SpecBoot(r, d, Home(r, d), b)
  {
    var e := CommitAll(r, d, b.done);
    CommitAllRefines(r, d, b.done);
    TxOkKeys(r, d, e, b.cut);
    CutTxRefines(r, e, b.cut, b.at, b.recoveries);
  }

  lemma BootsOkKeys(r: Region, d: Disk, e: Disk, bs: seq<Boot>)
    requires d.Keys == e.Keys && forall i | 0 <= i < |bs| :: BootOk(r, d, bs[i])
    ensures forall i | 0 <= i < |bs| :: BootOk(r, e, bs[i])
  {
    forall i | 0 <= i < |bs| ensures BootOk(r, e, bs[i]) { BootOkKeys(r, d, e, bs[i]); }
  }

  ghost function RunBoots(r: Region, d: Disk, bs: seq<Boot>): (d': Disk)
    requires LogEmpty(r, d) && forall i | 0 <= i < |bs| :: BootOk(r, d, bs[i])
    decreases |bs|
  {
    if bs == [] then d else
    var e := RunBoot(r, d, bs[0]);
    BootsOkKeys(r, d, e, bs);
    RunBoots(r, e, bs[1..])
  }

  ghost function SpecBoots(r: Region, d: Disk, h: map<int, Block>, bs: seq<Boot>): map<int, Block>
    requires forall i | 0 <= i < |bs| :: BootOk(r, d, bs[i])
    decreases |bs|
  {
    if bs == [] then h else SpecBoots(r, d, SpecBoot(r, d, h, bs[0]), bs[1..])
  }

  lemma {:induction false} SpecBootsKeys(r: Region, d: Disk, e: Disk, h: map<int, Block>, bs: seq<Boot>)
    requires d.Keys == e.Keys && forall i | 0 <= i < |bs| :: BootOk(r, d, bs[i])
    requires forall i | 0 <= i < |bs| :: BootOk(r, e, bs[i])
    ensures SpecBoots(r, d, h, bs) == SpecBoots(r, e, h, bs)
    decreases |bs|
  {
    if bs != [] { SpecBootsKeys(r, d, e, SpecBoot(r, d, h, bs[0]), bs[1..]); }
  }

  /**
   * Whole runs: however many boots, each with any committed transactions, any crash point and
   * any crashed recoveries, the home blocks are those of a store that applies each committed
   * transaction in a single step and never sees the others.
   */
  lemma {:induction false} RunsAreAtomic(r: Region, d: Disk, bs: seq<Boot>)
    requires LogEmpty(r, d) && forall i | 0 <= i < |bs| :: BootOk(r, d, bs[i])
    ensures Home(r, RunBoots(r, d, bs)) == SpecBoots(r, d, Home(r, d), bs)
    decreases |bs|
  {
    if bs != [] {
      var e := RunBoot(r, d, bs[0]);
      BootRefines(r, d, bs[0]);
      BootsOkKeys(r, d, e, bs);
      RunsAreAtomic(r, e, bs[1..]);
      SpecBootsKeys(r, d, e, SpecBoot(r, d, Home(r, d), bs[0]), bs[1..]);
    }
  }
}
