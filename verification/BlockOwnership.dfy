/**
 * Who owns which disk block, and what a file contains (fs.c, fs.h).
 *
 * An inode has slots 0..11 for direct blocks, slot 12 for the indirect block, and slots
 * 13..268 for the entries of the indirect block.  A slot holds 0 or a block number.
 */
module BlockOwnership {
  import opened Machine
  import opened Params

  const NDIRECT: int := 12
  const NINDIRECT: int := 256
  const MAXFILE: int := 268          // blocks
  const SLOTS: int := 269
  const BPB: int := 8192             // bitmap bits per block
  const IPB: int := 16               // inodes per block

  /** The part of the superblock that matters, and the number of metadata blocks before the data. */
  datatype Super = Super(size: int, bmapstart: int, inodestart: int, nmeta: int)

  type Blocks = map<int, seq<int>>   // block contents, as bytes

  datatype Inode = Inode(addrs: seq<int>, size: int)
  type Inodes = map<int, Inode>

  /** The one use of a block; Loose is allocated but not yet in any slot. */
  datatype Use = Unused | Meta | Loose | Slot(inum: int, k: int)
  type Uses = map<int, Use>

  // ---------------------------------------------------------------- bytes, bits and words

  predicate Bytes(b: seq<int>) {
    |b| == BSIZE && forall i | 0 <= i < BSIZE :: 0 <= b[i] < 256
  }

  function Zeros(): seq<int> { seq(BSIZE, i => 0) }

  /** (byte & (1 << k)) != 0 */
  predicate BitSet(byte: int, k: int)
    requires 0 <= k
    decreases k
  {
    if k == 0 then byte % 2 == 1 else BitSet(byte / 2, k - 1)
  }

  /** byte | (1 << k), or byte & ~(1 << k). */
  function WithBit(byte: int, k: int, on: bool): int
    requires 0 <= k
    decreases k
  {
    if k == 0 then byte / 2 * 2 + (if on then 1 else 0) else WithBit(byte / 2, k - 1, on) * 2 + byte % 2
  }

  lemma {:induction false} WithBitSets(byte: int, k: int, on: bool, j: int)
    requires 0 <= k && 0 <= j
    ensures BitSet(WithBit(byte, k, on), j) == if j == k then on else BitSet(byte, j)
    decreases k
  {
    if k > 0 && j > 0 { WithBitSets(byte / 2, k - 1, on, j - 1); }
  }

  lemma {:induction false} WithBitFits(byte: int, k: int, on: bool, n: nat)
    requires 0 <= byte < Pow2(n) && 0 <= k < n
    ensures 0 <= WithBit(byte, k, on) < Pow2(n)
  {
    var p := Pow2(n - 1);
    assert Pow2(n) == 2 * p;
    if k > 0 {
      assert byte / 2 < p;
      WithBitFits(byte / 2, k - 1, on, n - 1);
    }
    WithBitStep(byte, k, on, p);
  }

  lemma WithBitStep(byte: int, k: int, on: bool, p: int)
    requires 0 <= byte < 2 * p && 0 <= k && (k > 0 ==> 0 <= WithBit(byte / 2, k - 1, on) < p)
    ensures 0 <= WithBit(byte, k, on) < 2 * p
  {
  }

  /** The little-endian word at index j of a block. */
  function Word(b: seq<int>, j: int): int
    requires 0 <= j < NINDIRECT && |b| == BSIZE
  {
    b[4 * j] + 256 * b[4 * j + 1] + 65536 * b[4 * j + 2] + 16777216 * b[4 * j + 3]
  }

  function SetWord(b: seq<int>, j: int, w: int): seq<int>
    requires 0 <= j < NINDIRECT && |b| == BSIZE
  {
    b[4 * j := w % 256][4 * j + 1 := w / 256 % 256][4 * j + 2 := w / 65536 % 256][4 * j + 3 := w / 16777216]
  }

  /** The four bytes of a word make up the word. */
  lemma BytesOfWord(w: int)
    requires 0 <= w < U32
    ensures w % 256 + 256 * (w / 256 % 256) + 65536 * (w / 65536 % 256) + 16777216 * (w / 16777216) == w
    ensures 0 <= w / 16777216 < 256
  {
    var q := w / 256;
    var p := q / 256;
    assert w / 65536 == p && w / 16777216 == p / 256;
  }

  lemma WordOf(b: seq<int>, j: int, w: int, i: int)
    requires 0 <= j < NINDIRECT && 0 <= i < NINDIRECT && Bytes(b) && 0 <= w < U32
    ensures Bytes(SetWord(b, j, w)) && Word(SetWord(b, j, w), i) == if i == j then w else Word(b, i)
  {
    BytesOfWord(w);
    var x, y, z, u := w % 256, w / 256 % 256, w / 65536 % 256, w / 16777216;
    var r := SetWord(b, j, w);
    assert r == b[4 * j := x][4 * j + 1 := y][4 * j + 2 := z][4 * j + 3 := u];
  }

  // ---------------------------------------------------------------- the bitmap

  function BBlock(sb: Super, b: int): int { b / BPB + sb.bmapstart }

  predicate Marked(sb: Super, blocks: Blocks, b: int)
    requires 0 <= b
  {
    var m := BBlock(sb, b);
    m in blocks && |blocks[m]| == BSIZE && BitSet(blocks[m][b % BPB / 8], b % 8)
  }

  function Mark(sb: Super, blocks: Blocks, b: int, on: bool): Blocks
    requires 0 <= b && BBlock(sb, b) in blocks && |blocks[BBlock(sb, b)]| == BSIZE
  {
    var m := BBlock(sb, b);
    blocks[m := blocks[m][b % BPB / 8 := WithBit(blocks[m][b % BPB / 8], b % 8, on)]]
  }

  lemma MarkMarks(sb: Super, blocks: Blocks, b: int, on: bool, c: int)
    requires 0 <= b && 0 <= c && BBlock(sb, b) in blocks && Bytes(blocks[BBlock(sb, b)])
    requires BBlock(sb, c) in blocks && Bytes(blocks[BBlock(sb, c)])
    ensures Marked(sb, Mark(sb, blocks, b, on), c) == if c == b then on else Marked(sb, blocks, c)
    ensures Bytes(Mark(sb, blocks, b, on)[BBlock(sb, b)])
  {
    var byte := blocks[BBlock(sb, b)][b % BPB / 8];
    WithBitSets(byte, b % 8, on, c % 8);
    assert Pow2(8) == 256;
    WithBitFits(byte, b % 8, on, 8);
    SameBit(b, c);
  }

  lemma SameBit(b: int, c: int)
    requires 0 <= b && 0 <= c
    ensures 0 <= b % BPB / 8 < BSIZE && 0 <= c % BPB / 8 < BSIZE
    ensures b / BPB == c / BPB && b % BPB / 8 == c % BPB / 8 && b % 8 == c % 8 ==> b == c
  {
    LowBits(b);
    LowBits(c);
  }

  lemma LowBits(b: int)
    requires 0 <= b
    ensures b % BPB % 8 == b % 8 && 0 <= b % BPB / 8 < BSIZE
  {
    var q, r := b / BPB, b % BPB;
    assert b == 8 * (1024 * q) + r;
  }

  // ---------------------------------------------------------------- inodes on disk

  /** The block that holds inode i. */
  function IBlock(sb: Super, i: int): int { i / IPB + sb.inodestart }

  /** Word j of inode i in its block: word 2 is the size, words 3 to 15 the addresses. */
  function InodeWord(i: int, j: int): int
    requires 0 <= i
  {
    i % IPB * 16 + j
  }

  /** What ilock() reads from the inode's block. */
  function ReadInode(b: seq<int>, i: int): Inode
    requires |b| == BSIZE && 0 <= i
  {
    Inode(seq(13, k requires 0 <= k < 13 => Word(b, InodeWord(i, 3 + k))), Word(b, InodeWord(i, 2)))
  }

  /** The block after iupdate(): the size and the addresses are the inode's, all other words stay. */
  function SetInode(b: seq<int>, i: int, ip: Inode): (r: seq<int>)
    requires |b| == BSIZE && 0 <= i && |ip.addrs| == 13
    ensures |r| == BSIZE
  {
    SetAddrs(SetWord(b, InodeWord(i, 2), ip.size), i, ip.addrs, 13)
  }

  function SetAddrs(b: seq<int>, i: int, addrs: seq<int>, n: nat): (r: seq<int>)
    requires |b| == BSIZE && 0 <= i && n <= |addrs| == 13
    ensures |r| == BSIZE
  {
    if n == 0 then b else SetWord(SetAddrs(b, i, addrs, n - 1), InodeWord(i, 2 + n), addrs[n - 1])
  }

  ghost predicate Words(ip: Inode) {
    |ip.addrs| == 13 && 0 <= ip.size < U32 && forall k | 0 <= k < 13 :: 0 <= ip.addrs[k] < U32
  }

  lemma {:induction false} SetAddrsWord(b: seq<int>, i: int, addrs: seq<int>, n: nat, w: int)
    requires Bytes(b) && 0 <= i && n <= |addrs| == 13 && 0 <= w < NINDIRECT && forall k | 0 <= k < 13 :: 0 <= addrs[k] < U32
    ensures Bytes(SetAddrs(b, i, addrs, n))
    ensures Word(SetAddrs(b, i, addrs, n), w) ==
            if InodeWord(i, 3) <= w < InodeWord(i, 3 + n) then addrs[w - InodeWord(i, 3)] else Word(b, w)
  {
    hide Word, SetWord;
    if n > 0 {
      SetAddrsWord(b, i, addrs, n - 1, w);
      WordOf(SetAddrs(b, i, addrs, n - 1), InodeWord(i, 2 + n), addrs[n - 1], w);
    }
  }

  /** iupdate() then ilock(): the same inode, and all other words of the block are as they were. */
  lemma SetInodeWord(b: seq<int>, i: int, ip: Inode, w: int)
    requires Bytes(b) && 0 <= i && Words(ip) && 0 <= w < NINDIRECT
    ensures Bytes(SetInode(b, i, ip))
    ensures Word(SetInode(b, i, ip), w) ==
            if w == InodeWord(i, 2) then ip.size
            else if InodeWord(i, 3) <= w < InodeWord(i, 16) then ip.addrs[w - InodeWord(i, 3)] else Word(b, w)
  {
    hide Word, SetWord, SetAddrs;
    WordOf(b, InodeWord(i, 2), ip.size, w);
    SetAddrsWord(SetWord(b, InodeWord(i, 2), ip.size), i, ip.addrs, 13, w);
  }

  lemma InodeRoundTrip(b: seq<int>, i: int, ip: Inode, j: int)
    requires Bytes(b) && 0 <= i && 0 <= j && Words(ip)
    ensures Bytes(SetInode(b, i, ip))
    ensures ReadInode(SetInode(b, i, ip), j) == if j % IPB == i % IPB then ip else ReadInode(b, j)
  {
    hide Word, SetInode;
    var r := SetInode(b, i, ip);
    var x, y := ReadInode(r, j), if j % IPB == i % IPB then ip else ReadInode(b, j);
    InodeWordsApart(i, j, 2);
    SetInodeWord(b, i, ip, InodeWord(j, 2));
    forall k | 0 <= k < 13 ensures x.addrs[k] == y.addrs[k] {
      InodeWordsApart(i, j, 3 + k);
      SetInodeWord(b, i, ip, InodeWord(j, 3 + k));
    }
    assert x.addrs == y.addrs && x.size == y.size;
  }

  lemma InodeWordsApart(i: int, j: int, k: int)
    requires 0 <= i && 0 <= j && 2 <= k < 16
    ensures 0 <= InodeWord(j, k) < NINDIRECT
    ensures j % IPB == i % IPB <==> InodeWord(i, 2) <= InodeWord(j, k) < InodeWord(i, 16)
  {
  }

  /** Inode i as it is on the disk. */
  function DInode(sb: Super, blocks: Blocks, i: int): Inode
    requires 0 <= i && IBlock(sb, i) in blocks && |blocks[IBlock(sb, i)]| == BSIZE
  {
    ReadInode(blocks[IBlock(sb, i)], i)
  }

  /** The inodes on the disk are those in memory. */
  ghost predicate Synced(sb: Super, blocks: Blocks, inodes: Inodes) {
    forall i | i in inodes :: OnDisk(sb, blocks, i, inodes[i])
  }

  ghost predicate OnDisk(sb: Super, blocks: Blocks, i: int, ip: Inode) {
    0 <= i && IBlock(sb, i) in blocks && |blocks[IBlock(sb, i)]| == BSIZE && DInode(sb, blocks, i) == ip
  }

  // ---------------------------------------------------------------- slots and contents

  /** The block in slot k of an inode, or 0. */
  function AddrAt(blocks: Blocks, ip: Inode, k: int): int
    requires |ip.addrs| == 13 && 0 <= k < SLOTS
  {
    if k <= NDIRECT then ip.addrs[k] else
    var ind := ip.addrs[NDIRECT];
    if ind == 0 || ind !in blocks || |blocks[ind]| != BSIZE then 0 else Word(blocks[ind], k - 13)
  }

  /** The slot for block bn of a file. */
  function SlotOf(bn: int): int { if bn < NDIRECT then bn else bn + 1 }

  // ---------------------------------------------------------------- the format of the disk, byte by byte

  /** The little-endian number at byte `at`. */
  function NumberAt(b: seq<int>, at: int): int
    requires 0 <= at && at + 4 <= |b|
  {
    b[at] + 256 * (b[at + 1] + 256 * (b[at + 2] + 256 * b[at + 3]))
  }

  /** 1 << k */
  const BITS: seq<int> := [1, 2, 4, 8, 16, 32, 64, 128]

  lemma {:induction false} BitByValue(byte: int, k: nat)
    requires k < 8
    ensures BITS[k] > 0 && (BitSet(byte, k) <==> byte / BITS[k] % 2 == 1)
    decreases k
  {
    if k > 0 {
      BitByValue(byte / 2, k - 1);
      hide BitSet;
      assert byte / 2 / BITS[k - 1] == byte / BITS[k];
    }
  }

  /** The bit of block b. */
  lemma BitmapFormat(sb: Super, blocks: Blocks, b: int)
    requires 0 <= b
    ensures var m := sb.bmapstart + b / 8192;
            0 <= b % 8192 / 8 < 1024 && BITS[b % 8] > 0 && (Marked(sb, blocks, b) <==> m in blocks && |blocks[m]| == 1024 && blocks[m][b % 8192 / 8] / BITS[b % 8] % 2 == 1)
  {
    LowBits(b);
    var m := BBlock(sb, b);
    if m in blocks && |blocks[m]| == 1024 { BitByValue(blocks[m][b % 8192 / 8], b % 8); }
  }

  /** An inode has 64 bytes; its size is at byte 8, its address k at byte 12 + 4k. */
  lemma InodeFormat(sb: Super, b: seq<int>, i: int, k: int)
    requires |b| == BSIZE && 0 <= i && 0 <= k < 13
    ensures var at := i % 16 * 64;
            ReadInode(b, i).size == NumberAt(b, at + 8) && ReadInode(b, i).addrs[k] == NumberAt(b, at + 12 + 4 * k)
    ensures IBlock(sb, i) == sb.inodestart + i / 16
  {
  }

  /** Block bn of a file: 12 are named by the inode, 256 by the indirect block. */
  lemma FileFormat(blocks: Blocks, ip: Inode, bn: int)
    requires |ip.addrs| == 13 && 0 <= bn < 12 + 256 && ip.addrs[12] != 0 && ip.addrs[12] in blocks && |blocks[ip.addrs[12]]| == 1024
    ensures AddrAt(blocks, ip, SlotOf(bn)) == if bn < 12 then ip.addrs[bn] else NumberAt(blocks[ip.addrs[12]], 4 * (bn - 12))
  {
  }

  /** Byte o of a file, whether or not below its size; unmapped blocks read as zero. */
  function ByteAt(blocks: Blocks, ip: Inode, o: int): int
    requires |ip.addrs| == 13 && 0 <= o < MAXFILE * BSIZE
  {
    var a := AddrAt(blocks, ip, SlotOf(o / BSIZE));
    if a == 0 || a !in blocks || |blocks[a]| != BSIZE then 0 else blocks[a][o % BSIZE]
  }

  /** A file is a sequence of bytes. */
  function Contents(blocks: Blocks, ip: Inode): seq<int>
    requires |ip.addrs| == 13 && 0 <= ip.size <= MAXFILE * BSIZE
  {
    seq(ip.size, o requires 0 <= o < ip.size => ByteAt(blocks, ip, o))
  }

  // ---------------------------------------------------------------- the invariant

  ghost predicate LayoutOk(sb: Super) {
    && 0 < sb.nmeta <= sb.size < U32 && 0 < sb.inodestart <= sb.bmapstart && BBlock(sb, sb.size - 1) < sb.nmeta
  }

  ghost predicate BlocksOk(sb: Super, blocks: Blocks) {
    && (forall b :: b in blocks <==> 0 <= b < sb.size)
    && (forall b | b in blocks :: Bytes(blocks[b]))
  }

  ghost predicate BitsOk(sb: Super, blocks: Blocks, use: Uses) {
    && use.Keys == blocks.Keys
    && (forall b | b in use :: use[b] == Meta <==> b < sb.nmeta)
    && (forall b | b in use && 0 <= b :: Marked(sb, blocks, b) <==> use[b] != Unused)
  }

  ghost predicate IsSlot(inodes: Inodes, i: int, k: int) {
    i in inodes && |inodes[i].addrs| == 13 && 0 <= k < SLOTS
  }

  /** In a file being truncated, the entries of the indirect block below slot hk are stale. */
  predicate Stale(i: int, k: int, hi: int, hk: int) { i == hi && 13 <= k < hk }

  /** Slots and uses agree, but for stale entries. */
  ghost predicate SlotsOk(blocks: Blocks, inodes: Inodes, use: Uses, hi: int, hk: int) {
    && (forall i, k | IsSlot(inodes, i, k) && AddrAt(blocks, inodes[i], k) != 0 && !Stale(i, k, hi, hk) ::
          AddrAt(blocks, inodes[i], k) in use && use[AddrAt(blocks, inodes[i], k)] == Slot(i, k))
    && (forall b | b in use && use[b].Slot? ::
          && IsSlot(inodes, use[b].inum, use[b].k) && !Stale(use[b].inum, use[b].k, hi, hk)
          && AddrAt(blocks, inodes[use[b].inum], use[b].k) == b)
  }

  /** Every block below the size is mapped. */
  ghost predicate FileOk(blocks: Blocks, ip: Inode) {
    && |ip.addrs| == 13 && 0 <= ip.size <= MAXFILE * BSIZE
    && forall bn | 0 <= bn && bn * BSIZE < ip.size :: AddrAt(blocks, ip, SlotOf(bn)) != 0
  }

  /** All files are in order, but for file hi, which is being truncated. */
  ghost predicate FilesOk(blocks: Blocks, inodes: Inodes, hi: int) {
    forall i | i in inodes :: i >= 0 && |inodes[i].addrs| == 13 && (i != hi ==> FileOk(blocks, inodes[i]))
  }

  /** Every inode has its place in an inode block. */
  ghost predicate InodesFit(sb: Super, inodes: Inodes) {
    forall i | i in inodes :: i >= 0 && IBlock(sb, i) < sb.bmapstart
  }

  ghost predicate InvBut(sb: Super, blocks: Blocks, inodes: Inodes, use: Uses, hi: int, hk: int) {
    && LayoutOk(sb) && BlocksOk(sb, blocks) && BitsOk(sb, blocks, use) && InodesFit(sb, inodes)
    && SlotsOk(blocks, inodes, use, hi, hk) && FilesOk(blocks, inodes, hi)
  }

  ghost predicate Inv(sb: Super, blocks: Blocks, inodes: Inodes, use: Uses) {
    InvBut(sb, blocks, inodes, use, -1, 0)
  }

  /** Block b is in some slot. */
  ghost predicate InSlot(blocks: Blocks, inodes: Inodes, b: int) {
    exists i, k :: IsSlot(inodes, i, k) && AddrAt(blocks, inodes[i], k) == b
  }

  /** Block ownership: a bit is set exactly for metadata blocks, loose blocks and blocks in some slot. */
  lemma MarkedIffOwned(sb: Super, blocks: Blocks, inodes: Inodes, use: Uses, b: int)
    requires Inv(sb, blocks, inodes, use) && sb.nmeta <= b < sb.size
    ensures Marked(sb, blocks, b) <==> use[b] == Loose || InSlot(blocks, inodes, b)
  {
    hide Marked, AddrAt, Bytes, FilesOk;
    if use[b].Slot? {
      assert AddrAt(blocks, inodes[use[b].inum], use[b].k) == b;
    }
    if InSlot(blocks, inodes, b) {
      var i, k :| IsSlot(inodes, i, k) && AddrAt(blocks, inodes[i], k) == b;
      assert use[b] == Slot(i, k);
    }
  }

  /** Between calls no block is allocated without being in a slot. */
  ghost predicate NoLoose(use: Uses) { forall b | b in use :: use[b] != Loose }

  /** What bmap(), writei() and itrunc() do to the uses of blocks leaves none loose. */
  lemma NoneLoose(use: Uses, use': Uses, i: int, lo: int, hi: int)
    requires NoLoose(use) && (Taken(use, use', i, lo, hi) || Dropped(use, use', i))
    ensures NoLoose(use')
  {
  }

  /** So no block leaks: between calls a bit is set exactly for metadata blocks and blocks in some slot. */
  lemma NoLeak(sb: Super, blocks: Blocks, inodes: Inodes, use: Uses, b: int)
    requires Inv(sb, blocks, inodes, use) && NoLoose(use) && 0 <= b < sb.size
    ensures Marked(sb, blocks, b) <==> b < sb.nmeta || InSlot(blocks, inodes, b)
  {
    hide Marked, AddrAt, Bytes, FilesOk;
    if b >= sb.nmeta {
      MarkedIffOwned(sb, blocks, inodes, use, b);
    }
  }

  /** ... and no block is in two slots, nor both metadata or loose and in a slot. */
  lemma OwnedOnce(sb: Super, blocks: Blocks, inodes: Inodes, use: Uses, i: int, k: int, i': int, k': int)
    requires Inv(sb, blocks, inodes, use) && IsSlot(inodes, i, k) && IsSlot(inodes, i', k')
    requires AddrAt(blocks, inodes[i], k) == AddrAt(blocks, inodes[i'], k') != 0
    ensures i == i' && k == k' && sb.nmeta <= AddrAt(blocks, inodes[i], k) < sb.size && use[AddrAt(blocks, inodes[i], k)] != Loose
  {
    hide Marked, AddrAt, Bytes, FilesOk;
    assert use[AddrAt(blocks, inodes[i], k)] == Slot(i, k);
    assert use[AddrAt(blocks, inodes[i'], k')] == Slot(i', k');
  }

  // ---------------------------------------------------------------- a new file system

  function ZeroDisk(n: nat): (blocks: Blocks)
    ensures forall b :: b in blocks <==> 0 <= b < n
    ensures forall b | b in blocks :: blocks[b] == Zeros()
  {
    if n == 0 then map[] else ZeroDisk(n - 1)[n - 1 := Zeros()]
  }

  /** The bitmap after marking the first n blocks. */
  function MarkFirst(sb: Super, n: nat): (blocks: Blocks)
    requires LayoutOk(sb) && n <= sb.size
    ensures BlocksOk(sb, blocks)
  {
    if n == 0 then ZeroDisk(sb.size) else
    var before := MarkFirst(sb, n - 1);
    BBlockOk(sb, n - 1);
    MarkFacts(sb, before, n - 1, true);
    Mark(sb, before, n - 1, true)
  }

  lemma {:induction false} MarkedFirst(sb: Super, n: nat, b: int)
    requires LayoutOk(sb) && n <= sb.size && 0 <= b < sb.size
    ensures Marked(sb, MarkFirst(sb, n), b) <==> b < n
  {
    hide Marked, Mark, Zeros, BitSet, WithBit, BBlock;
    BBlockOk(sb, b);
    if n > 0 {
      MarkedFirst(sb, n - 1, b);
      BBlockOk(sb, n - 1);
      MarkMarks(sb, MarkFirst(sb, n - 1), n - 1, true, b);
    } else {
      NoneMarked(sb, b);
    }
  }

  lemma NoneMarked(sb: Super, b: int)
    requires LayoutOk(sb) && 0 <= b < sb.size
    ensures !Marked(sb, ZeroDisk(sb.size), b)
  {
    hide ZeroDisk;
    BBlockOk(sb, b);
    NoBits(b % 8);
  }

  lemma {:induction false} NoBits(k: int)
    requires 0 <= k
    ensures !BitSet(0, k)
    decreases k
  {
    if k > 0 { NoBits(k - 1); }
  }

  ghost function FreshUse(n: nat, nmeta: int): (use: Uses)
    ensures forall b :: b in use <==> 0 <= b < n
    ensures forall b | b in use :: use[b] == if b < nmeta then Meta else Unused
  {
    if n == 0 then map[] else FreshUse(n - 1, nmeta)[n - 1 := if n - 1 < nmeta then Meta else Unused]
  }

  /** A new file system, with only metadata marked and every inode empty, meets the invariant. */
  lemma FreshInv(sb: Super, inodes: Inodes)
    requires LayoutOk(sb) && forall i | i in inodes :: i >= 0 && IBlock(sb, i) < sb.bmapstart && inodes[i] == Inode(seq(13, k => 0), 0)
    ensures Inv(sb, MarkFirst(sb, sb.nmeta), inodes, FreshUse(sb.size, sb.nmeta))
  {
    hide MarkFirst, FreshUse, Marked;
    var blocks, use := MarkFirst(sb, sb.nmeta), FreshUse(sb.size, sb.nmeta);
    forall b | b in use && 0 <= b ensures Marked(sb, blocks, b) <==> use[b] != Unused { MarkedFirst(sb, sb.nmeta, b); }
    assert use.Keys == blocks.Keys;
  }

  lemma {:induction false} MarkFirstBefore(sb: Super, n: nat, b: int)
    requires LayoutOk(sb) && n <= sb.size && 0 <= b < sb.bmapstart && b < sb.size
    ensures MarkFirst(sb, n)[b] == Zeros()
  {
    if n > 0 {
      MarkFirstBefore(sb, n - 1, b);
      BBlockOk(sb, n - 1);
      MarkFacts(sb, MarkFirst(sb, n - 1), n - 1, true);
    }
  }

  /** ... and the empty inodes are what its zeroed inode blocks hold. */
  lemma FreshSynced(sb: Super, inodes: Inodes)
    requires LayoutOk(sb) && forall i | i in inodes :: i >= 0 && IBlock(sb, i) < sb.bmapstart && inodes[i] == Inode(seq(13, k => 0), 0)
    ensures Synced(sb, MarkFirst(sb, sb.nmeta), inodes)
  {
    hide MarkFirst;
    forall i | i in inodes ensures OnDisk(sb, MarkFirst(sb, sb.nmeta), i, inodes[i]) {
      MarkFirstBefore(sb, sb.nmeta, IBlock(sb, i));
      ZeroInode(i);
    }
  }

  lemma ZeroInode(i: int)
    requires 0 <= i
    ensures ReadInode(Zeros(), i) == Inode(seq(13, k => 0), 0)
  {
    hide Word;
    InodeWordsApart(i, i, 2);
    ZeroWord(InodeWord(i, 2));
    var ip := ReadInode(Zeros(), i);
    forall k | 0 <= k < 13 ensures ip.addrs[k] == 0 {
      InodeWordsApart(i, i, 3 + k);
      ZeroWord(InodeWord(i, 3 + k));
    }
  }

  // ---------------------------------------------------------------- what does not change

  /** Blocks in slots that hold addresses (or all blocks in slots) keep their contents. */
  ghost predicate Keeps(blocks: Blocks, blocks': Blocks, use: Uses, all: bool) {
    forall b | b in use && use[b].Slot? && (all || use[b].k == NDIRECT) :: b in blocks && b in blocks' && blocks'[b] == blocks[b]
  }

  lemma AddrFrame(blocks: Blocks, blocks': Blocks, inodes: Inodes, use: Uses, hi: int, hk: int, i: int, k: int)
    requires SlotsOk(blocks, inodes, use, hi, hk) && Keeps(blocks, blocks', use, false) && IsSlot(inodes, i, k)
    ensures AddrAt(blocks', inodes[i], k) == AddrAt(blocks, inodes[i], k)
  {
    hide Word;
    assert IsSlot(inodes, i, NDIRECT) && AddrAt(blocks, inodes[i], NDIRECT) == inodes[i].addrs[NDIRECT];
  }

  lemma ByteFrame(blocks: Blocks, blocks': Blocks, inodes: Inodes, use: Uses, hi: int, hk: int, i: int, o: int)
    requires SlotsOk(blocks, inodes, use, hi, hk) && Keeps(blocks, blocks', use, true) && IsSlot(inodes, i, 0) && i != hi
    requires 0 <= o < MAXFILE * BSIZE
    ensures ByteAt(blocks', inodes[i], o) == ByteAt(blocks, inodes[i], o)
  {
    hide Word;
    AddrFrame(blocks, blocks', inodes, use, hi, hk, i, SlotOf(o / BSIZE));
    assert IsSlot(inodes, i, SlotOf(o / BSIZE));
  }

  /** Every file but hi has the size and the bytes it had. */
  ghost predicate SameFiles(blocks: Blocks, inodes: Inodes, blocks': Blocks, inodes': Inodes, hi: int) {
    && inodes'.Keys == inodes.Keys
    && forall i | i in inodes && i != hi :: SameFile(blocks, inodes[i], blocks', inodes'[i])
  }

  ghost predicate SameFile(blocks: Blocks, ip: Inode, blocks': Blocks, ip': Inode) {
    && |ip.addrs| == 13 && |ip'.addrs| == 13 && ip'.size == ip.size
    && forall o | 0 <= o < MAXFILE * BSIZE :: ByteAt(blocks', ip', o) == ByteAt(blocks, ip, o)
  }

  lemma SlotsFrame(blocks: Blocks, blocks': Blocks, inodes: Inodes, use: Uses, hi: int, hk: int)
    requires SlotsOk(blocks, inodes, use, hi, hk) && Keeps(blocks, blocks', use, false)
    ensures SlotsOk(blocks', inodes, use, hi, hk)
    ensures FilesOk(blocks, inodes, hi) ==> FilesOk(blocks', inodes, hi)
  {
    hide AddrAt;
    forall i, k | IsSlot(inodes, i, k) ensures AddrAt(blocks', inodes[i], k) == AddrAt(blocks, inodes[i], k) {
      AddrFrame(blocks, blocks', inodes, use, hi, hk, i, k);
    }
    if FilesOk(blocks, inodes, hi) {
      forall i | i in inodes && i != hi ensures FileOk(blocks', inodes[i]) {
        forall bn | 0 <= bn && bn * BSIZE < inodes[i].size ensures AddrAt(blocks', inodes[i], SlotOf(bn)) != 0 {
          assert IsSlot(inodes, i, SlotOf(bn));
        }
      }
    }
  }

  lemma FilesFrame(blocks: Blocks, blocks': Blocks, inodes: Inodes, use: Uses, hi: int, hk: int)
    requires SlotsOk(blocks, inodes, use, hi, hk) && Keeps(blocks, blocks', use, true) && FilesOk(blocks, inodes, hi)
    ensures SameFiles(blocks, inodes, blocks', inodes, hi)
  {
    hide ByteAt, AddrAt;
    forall i | i in inodes && i != hi ensures SameFile(blocks, inodes[i], blocks', inodes[i]) {
      forall o | 0 <= o < MAXFILE * BSIZE ensures ByteAt(blocks', inodes[i], o) == ByteAt(blocks, inodes[i], o) {
        ByteFrame(blocks, blocks', inodes, use, hi, hk, i, o);
      }
    }
  }

  // ---------------------------------------------------------------- allocating

  function Allocated(sb: Super, blocks: Blocks, b: int): Blocks
    requires 0 <= b && BBlock(sb, b) in blocks && |blocks[BBlock(sb, b)]| == BSIZE
  {
    Mark(sb, blocks, b, true)[b := Zeros()]
  }

  lemma BBlockOk(sb: Super, b: int)
    requires LayoutOk(sb) && 0 <= b < sb.size
    ensures 0 <= BBlock(sb, b) < sb.nmeta
  {
  }

  lemma MarkOk(sb: Super, blocks: Blocks, use: Uses, b: int, on: bool, u: Use)
    requires LayoutOk(sb) && BlocksOk(sb, blocks) && BitsOk(sb, blocks, use) && sb.nmeta <= b < sb.size
    requires u != Meta && (on <==> u != Unused)
    ensures BBlock(sb, b) in blocks && |blocks[BBlock(sb, b)]| == BSIZE && use[BBlock(sb, b)] == Meta
    ensures BlocksOk(sb, Mark(sb, blocks, b, on)) && BitsOk(sb, Mark(sb, blocks, b, on), use[b := u])
  {
    hide Marked, Mark, WithBit;
    BBlockOk(sb, b);
    MarkFacts(sb, blocks, b, on);
    var blocks', use' := Mark(sb, blocks, b, on), use[b := u];
    forall c | c in use' && 0 <= c ensures Marked(sb, blocks', c) <==> use'[c] != Unused {
      BBlockOk(sb, c);
      MarkMarks(sb, blocks, b, on, c);
    }
    MarkMarks(sb, blocks, b, on, b);
  }

  lemma MarkFacts(sb: Super, blocks: Blocks, b: int, on: bool)
    requires 0 <= b && BBlock(sb, b) in blocks && Bytes(blocks[BBlock(sb, b)])
    ensures var m, blocks' := BBlock(sb, b), Mark(sb, blocks, b, on);
            blocks' == blocks[m := blocks'[m]] && Bytes(blocks'[m])
  {
    MarkMarks(sb, blocks, b, on, b);
  }

  lemma AllocOk(sb: Super, blocks: Blocks, inodes: Inodes, use: Uses, b: int)
    requires Inv(sb, blocks, inodes, use) && b in use && use[b] == Unused
    ensures BBlock(sb, b) in blocks && |blocks[BBlock(sb, b)]| == BSIZE
    ensures Inv(sb, Allocated(sb, blocks, b), inodes, use[b := Loose])
    ensures SameFiles(blocks, inodes, Allocated(sb, blocks, b), inodes, -1)
  {
    hide Marked, Mark, AddrAt, ByteAt, SlotsOk, FilesOk, SameFile;
    MarkOk(sb, blocks, use, b, true, Loose);
    MarkFacts(sb, blocks, b, true);
    var blocks1, blocks', use' := Mark(sb, blocks, b, true), Allocated(sb, blocks, b), use[b := Loose];
    ZerosFrame(sb, blocks1, use', b);
    assert Keeps(blocks, blocks', use, true);
    LooseSlots(blocks, inodes, use, b, -1, 0, Loose);
    SlotsFrame(blocks, blocks', inodes, use', -1, 0);
    FilesFrame(blocks, blocks', inodes, use, -1, 0);
  }

  /** Changing the contents of a block that holds no bits. */
  lemma DataFrame(sb: Super, blocks: Blocks, use: Uses, b: int, content: seq<int>)
    requires LayoutOk(sb) && BlocksOk(sb, blocks) && BitsOk(sb, blocks, use) && Bytes(content)
    requires sb.nmeta <= b < sb.size || 0 <= b < sb.bmapstart
    ensures BlocksOk(sb, blocks[b := content]) && BitsOk(sb, blocks[b := content], use)
  {
    hide Bytes, BitSet;
    forall c | c in use && 0 <= c ensures Marked(sb, blocks[b := content], c) == Marked(sb, blocks, c) {
      BBlockOk(sb, c);
    }
  }

  lemma ZerosFrame(sb: Super, blocks: Blocks, use: Uses, b: int)
    requires LayoutOk(sb) && BlocksOk(sb, blocks) && BitsOk(sb, blocks, use) && sb.nmeta <= b < sb.size
    ensures BlocksOk(sb, blocks[b := Zeros()]) && BitsOk(sb, blocks[b := Zeros()], use)
  {
    DataFrame(sb, blocks, use, b, Zeros());
  }

  /** Blocks in no slot may change between unused and loose. */
  lemma LooseSlots(blocks: Blocks, inodes: Inodes, use: Uses, b: int, hi: int, hk: int, u: Use)
    requires SlotsOk(blocks, inodes, use, hi, hk) && b in use && !use[b].Slot? && !u.Slot?
    ensures SlotsOk(blocks, inodes, use[b := u], hi, hk)
  {
    hide AddrAt;
  }

  // ---------------------------------------------------------------- filling a slot

  /** Slot k <= 12 of inode i takes block b. */
  function WithAddr(inodes: Inodes, i: int, k: int, b: int): Inodes
    requires i in inodes && |inodes[i].addrs| == 13 && 0 <= k <= NDIRECT
  {
    inodes[i := inodes[i].(addrs := inodes[i].addrs[k := b])]
  }

  lemma ZeroWord(j: int)
    requires 0 <= j < NINDIRECT
    ensures Word(Zeros(), j) == 0
  {
  }

  lemma LinkAddr(blocks: Blocks, inodes: Inodes, use: Uses, i: int, k: int, b: int, i': int, k': int)
    requires SlotsOk(blocks, inodes, use, -1, 0) && i in inodes && |inodes[i].addrs| == 13 && 0 <= k <= NDIRECT
    requires inodes[i].addrs[k] == 0 && b in blocks && blocks[b] == Zeros() && b != 0 && IsSlot(inodes, i', k')
    ensures AddrAt(blocks, WithAddr(inodes, i, k, b)[i'], k') == if i == i' && k == k' then b else AddrAt(blocks, inodes[i'], k')
  {
    hide Word;
    if k' > NDIRECT { ZeroWord(k' - 13); }
  }

  /** A loose zeroed block goes into a free slot of the inode: no file changes. */
  lemma LinkOk(sb: Super, blocks: Blocks, inodes: Inodes, use: Uses, i: int, k: int, b: int)
    requires Inv(sb, blocks, inodes, use) && i in inodes && |inodes[i].addrs| == 13 && 0 <= k <= NDIRECT
    requires inodes[i].addrs[k] == 0 && b in use && use[b] == Loose && blocks[b] == Zeros()
    ensures Inv(sb, blocks, WithAddr(inodes, i, k, b), use[b := Slot(i, k)])
    ensures SameFiles(blocks, inodes, blocks, WithAddr(inodes, i, k, b), -1)
  {
    hide SlotsOk, FilesOk, Marked, AddrAt, ByteAt, SameFile, NewSlot, Bytes;
    BlockZero(sb, blocks, use);
    LinkIsNewSlot(blocks, inodes, use, i, k, b);
    NewSlotOk(blocks, inodes, blocks, WithAddr(inodes, i, k, b), use, i, k, b);
    NewSlotFiles(blocks, inodes, blocks, WithAddr(inodes, i, k, b), use, i, k, b);
    UseBits(sb, blocks, use, b, Slot(i, k));
  }

  lemma BlockZero(sb: Super, blocks: Blocks, use: Uses)
    requires LayoutOk(sb) && BlocksOk(sb, blocks) && BitsOk(sb, blocks, use)
    ensures 0 in use && use[0] == Meta
  {
    hide Marked;
  }

  lemma UseBits(sb: Super, blocks: Blocks, use: Uses, b: int, u: Use)
    requires BitsOk(sb, blocks, use) && b in use && use[b] != Meta && u != Meta && (use[b] == Unused <==> u == Unused)
    ensures BitsOk(sb, blocks, use[b := u])
  {
    hide Marked;
  }

  lemma LinkIsNewSlot(blocks: Blocks, inodes: Inodes, use: Uses, i: int, k: int, b: int)
    requires SlotsOk(blocks, inodes, use, -1, 0) && i in inodes && |inodes[i].addrs| == 13 && 0 <= k <= NDIRECT
    requires inodes[i].addrs[k] == 0 && b in blocks && blocks[b] == Zeros() && b != 0
    ensures NewSlot(blocks, inodes, blocks, WithAddr(inodes, i, k, b), i, k, b)
  {
    hide SlotsOk;
    assert AddrAt(blocks, inodes[i], k) == 0;
    hide AddrAt;
    forall i', k' | IsSlot(inodes, i', k')
      ensures AddrAt(blocks, WithAddr(inodes, i, k, b)[i'], k') == if i == i' && k == k' then b else AddrAt(blocks, inodes[i'], k')
    {
      LinkAddr(blocks, inodes, use, i, k, b, i', k');
    }
  }

  /** Slots and addresses change at (i, k) only, which was empty and now holds b. */
  ghost predicate NewSlot(blocks: Blocks, inodes: Inodes, blocks': Blocks, inodes': Inodes, i: int, k: int, b: int) {
    && IsSlot(inodes, i, k) && inodes'.Keys == inodes.Keys && b != 0 && AddrAt(blocks, inodes[i], k) == 0
    && (forall i' | i' in inodes :: |inodes[i'].addrs| == |inodes'[i'].addrs| && inodes'[i'].size == inodes[i'].size)
    && forall i', k' | IsSlot(inodes, i', k') ::
         AddrAt(blocks', inodes'[i'], k') == if i == i' && k == k' then b else AddrAt(blocks, inodes[i'], k')
  }

  lemma NewSlotOk(blocks: Blocks, inodes: Inodes, blocks': Blocks, inodes': Inodes, use: Uses, i: int, k: int, b: int)
    requires SlotsOk(blocks, inodes, use, -1, 0) && b in use && use[b] == Loose && 0 in use && use[0] == Meta
    requires NewSlot(blocks, inodes, blocks', inodes', i, k, b)
    ensures SlotsOk(blocks', inodes', use[b := Slot(i, k)], -1, 0)
  {
    hide AddrAt;
    var use' := use[b := Slot(i, k)];
    forall i', k' | IsSlot(inodes', i', k') && AddrAt(blocks', inodes'[i'], k') != 0
      ensures AddrAt(blocks', inodes'[i'], k') in use' && use'[AddrAt(blocks', inodes'[i'], k')] == Slot(i', k')
    {
      assert IsSlot(inodes, i', k');
    }
    forall c | c in use' && use'[c].Slot? ensures IsSlot(inodes', use'[c].inum, use'[c].k)
      && AddrAt(blocks', inodes'[use'[c].inum], use'[c].k) == c
    {
      assert c != b ==> IsSlot(inodes, use[c].inum, use[c].k);
    }
  }

  lemma NewSlotFiles(blocks: Blocks, inodes: Inodes, blocks': Blocks, inodes': Inodes, use: Uses, i: int, k: int, b: int)
    requires SlotsOk(blocks, inodes, use, -1, 0) && FilesOk(blocks, inodes, -1) && NewSlot(blocks, inodes, blocks', inodes', i, k, b)
    requires blocks'.Keys == blocks.Keys && b in blocks && blocks'[b] == Zeros()
    requires forall c | c in use && use[c].Slot? && use[c].k != NDIRECT :: c in blocks && blocks'[c] == blocks[c]
    ensures FilesOk(blocks', inodes', -1) && SameFiles(blocks, inodes, blocks', inodes', -1)
  {
    forall i' | i' in inodes ensures FileOk(blocks', inodes'[i']) && SameFile(blocks, inodes[i'], blocks', inodes'[i']) {
      NewSlotFile(blocks, inodes, blocks', inodes', use, i, k, b, i');
    }
  }

  lemma NewSlotFile(blocks: Blocks, inodes: Inodes, blocks': Blocks, inodes': Inodes, use: Uses, i: int, k: int, b: int, i': int)
    requires SlotsOk(blocks, inodes, use, -1, 0) && FilesOk(blocks, inodes, -1) && NewSlot(blocks, inodes, blocks', inodes', i, k, b)
    requires blocks'.Keys == blocks.Keys && b in blocks && blocks'[b] == Zeros()
    requires forall c | c in use && use[c].Slot? && use[c].k != NDIRECT :: c in blocks && blocks'[c] == blocks[c]
    requires i' in inodes
    ensures FileOk(blocks', inodes'[i']) && SameFile(blocks, inodes[i'], blocks', inodes'[i'])
  {
    hide AddrAt;
    var ip, ip' := inodes[i'], inodes'[i'];
    forall bn | 0 <= bn < MAXFILE
      ensures AddrAt(blocks', ip', SlotOf(bn)) == if i == i' && k == SlotOf(bn) then b else AddrAt(blocks, ip, SlotOf(bn))
    {
      assert IsSlot(inodes, i', SlotOf(bn));
    }
    forall o | 0 <= o < MAXFILE * BSIZE ensures ByteAt(blocks', ip', o) == ByteAt(blocks, ip, o) {
      var a := AddrAt(blocks, ip, SlotOf(o / BSIZE));
      assert IsSlot(inodes, i', SlotOf(o / BSIZE));
    }
  }

  /** Entry j of inode i's indirect block takes block b. */
  lemma LinkEntryOk(sb: Super, blocks: Blocks, inodes: Inodes, use: Uses, i: int, j: int, b: int)
    requires Inv(sb, blocks, inodes, use) && i in inodes && |inodes[i].addrs| == 13 && 0 <= j < NINDIRECT
    requires inodes[i].addrs[NDIRECT] != 0 && AddrAt(blocks, inodes[i], 13 + j) == 0
    requires b in use && use[b] == Loose && blocks[b] == Zeros()
    ensures var ind := inodes[i].addrs[NDIRECT];
            && ind in blocks && |blocks[ind]| == BSIZE && ind != b
            && Inv(sb, blocks[ind := SetWord(blocks[ind], j, b)], inodes, use[b := Slot(i, 13 + j)])
            && SameFiles(blocks, inodes, blocks[ind := SetWord(blocks[ind], j, b)], inodes, -1)
  {
    hide SlotsOk, FilesOk, AddrAt, ByteAt, SameFile, NewSlot, Marked, Word, SetWord;
    var ind := inodes[i].addrs[NDIRECT];
    IndirectOwned(sb, blocks, inodes, use, i);
    BlockZero(sb, blocks, use);
    var blocks' := blocks[ind := SetWord(blocks[ind], j, b)];
    EntryIsNewSlot(sb, blocks, inodes, use, i, j, b);
    WordOf(blocks[ind], j, b, j);
    DataFrame(sb, blocks, use, ind, SetWord(blocks[ind], j, b));
    UseBits(sb, blocks', use, b, Slot(i, 13 + j));
    NewSlotOk(blocks, inodes, blocks', inodes, use, i, 13 + j, b);
    NewSlotFiles(blocks, inodes, blocks', inodes, use, i, 13 + j, b);
  }

  lemma EntryIsNewSlot(sb: Super, blocks: Blocks, inodes: Inodes, use: Uses, i: int, j: int, b: int)
    requires Inv(sb, blocks, inodes, use) && i in inodes && |inodes[i].addrs| == 13 && 0 <= j < NINDIRECT
    requires inodes[i].addrs[NDIRECT] != 0 && inodes[i].addrs[NDIRECT] in blocks && Bytes(blocks[inodes[i].addrs[NDIRECT]])
    requires AddrAt(blocks, inodes[i], 13 + j) == 0 && 0 < b < U32
    ensures var ind := inodes[i].addrs[NDIRECT];
            NewSlot(blocks, inodes, blocks[ind := SetWord(blocks[ind], j, b)], inodes, i, 13 + j, b)
  {
    hide Inv, AddrAt, Word, SetWord;
    var ind := inodes[i].addrs[NDIRECT];
    forall i', k' | IsSlot(inodes, i', k')
      ensures AddrAt(blocks[ind := SetWord(blocks[ind], j, b)], inodes[i'], k')
              == if i == i' && k' == 13 + j then b else AddrAt(blocks, inodes[i'], k')
    {
      EntryAddr(sb, blocks, inodes, use, i, j, b, i', k');
    }
  }

  lemma IndirectOwned(sb: Super, blocks: Blocks, inodes: Inodes, use: Uses, i: int)
    requires Inv(sb, blocks, inodes, use) && i in inodes && |inodes[i].addrs| == 13 && inodes[i].addrs[NDIRECT] != 0
    ensures var ind := inodes[i].addrs[NDIRECT];
            ind in blocks && Bytes(blocks[ind]) && ind in use && use[ind] == Slot(i, NDIRECT) && sb.nmeta <= ind < sb.size
  {
    assert IsSlot(inodes, i, NDIRECT) && AddrAt(blocks, inodes[i], NDIRECT) == inodes[i].addrs[NDIRECT];
  }

  lemma EntryAddr(sb: Super, blocks: Blocks, inodes: Inodes, use: Uses, i: int, j: int, b: int, i': int, k': int)
    requires Inv(sb, blocks, inodes, use) && i in inodes && |inodes[i].addrs| == 13 && 0 <= j < NINDIRECT
    requires inodes[i].addrs[NDIRECT] != 0 && inodes[i].addrs[NDIRECT] in blocks && Bytes(blocks[inodes[i].addrs[NDIRECT]])
    requires IsSlot(inodes, i', k') && 0 <= b < U32
    ensures var ind := inodes[i].addrs[NDIRECT];
            AddrAt(blocks[ind := SetWord(blocks[ind], j, b)], inodes[i'], k')
            == if i == i' && k' == 13 + j then b else AddrAt(blocks, inodes[i'], k')
  {
    hide Word, SetWord, Inv;
    var ind := inodes[i].addrs[NDIRECT];
    if k' > NDIRECT {
      WordOf(blocks[ind], j, b, k' - 13);
      if inodes[i'].addrs[NDIRECT] == ind {
        IndirectOwned(sb, blocks, inodes, use, i);
        IndirectOwned(sb, blocks, inodes, use, i');
      }
    }
  }

  // ---------------------------------------------------------------- writing data

  lemma SlotOwned(sb: Super, blocks: Blocks, inodes: Inodes, use: Uses, hi: int, hk: int, i: int, k: int)
    requires InvBut(sb, blocks, inodes, use, hi, hk) && IsSlot(inodes, i, k) && AddrAt(blocks, inodes[i], k) != 0 && !Stale(i, k, hi, hk)
    ensures var b := AddrAt(blocks, inodes[i], k);
            && b in blocks && Bytes(blocks[b]) && b in use && use[b] == Slot(i, k) && sb.nmeta <= b < sb.size
            && Marked(sb, blocks, b)
  {
    hide AddrAt, Marked;
  }

  /** Writing the data block bn of file i. */
  lemma WriteOk(sb: Super, blocks: Blocks, inodes: Inodes, use: Uses, i: int, bn: int, content: seq<int>)
    requires Inv(sb, blocks, inodes, use) && i in inodes && |inodes[i].addrs| == 13 && 0 <= bn < MAXFILE && Bytes(content)
    requires AddrAt(blocks, inodes[i], SlotOf(bn)) != 0
    ensures var blocks' := blocks[AddrAt(blocks, inodes[i], SlotOf(bn)) := content];
            && Inv(sb, blocks', inodes, use) && SameFiles(blocks, inodes, blocks', inodes, i)
            && (forall k | 0 <= k < SLOTS :: AddrAt(blocks', inodes[i], k) == AddrAt(blocks, inodes[i], k))
            && forall o | 0 <= o < MAXFILE * BSIZE ::
                 ByteAt(blocks', inodes[i], o) == if o / BSIZE == bn then content[o % BSIZE] else ByteAt(blocks, inodes[i], o)
  {
    hide AddrAt, Marked, SlotsOk, FilesOk, ByteAt, SameFile;
    var a := AddrAt(blocks, inodes[i], SlotOf(bn));
    assert IsSlot(inodes, i, SlotOf(bn));
    SlotOwned(sb, blocks, inodes, use, -1, 0, i, SlotOf(bn));
    var blocks' := blocks[a := content];
    DataFrame(sb, blocks, use, a, content);
    KeepsOthers(sb, blocks, inodes, use, a, content, i, bn);
    SlotsFrame(blocks, blocks', inodes, use, -1, 0);
    forall i' | i' in inodes && i' != i ensures SameFile(blocks, inodes[i'], blocks', inodes[i']) {
      OtherFile(sb, blocks, inodes, use, a, content, i, SlotOf(bn), i');
    }
    forall k | 0 <= k < SLOTS ensures AddrAt(blocks', inodes[i], k) == AddrAt(blocks, inodes[i], k) {
      AddrFrame(blocks, blocks', inodes, use, -1, 0, i, k);
    }
    forall o | 0 <= o < MAXFILE * BSIZE
      ensures ByteAt(blocks', inodes[i], o) == if o / BSIZE == bn then content[o % BSIZE] else ByteAt(blocks, inodes[i], o)
    {
      ThisFile(sb, blocks, inodes, use, content, i, bn, o);
    }
  }

  lemma KeepsOthers(sb: Super, blocks: Blocks, inodes: Inodes, use: Uses, a: int, content: seq<int>, i: int, bn: int)
    requires BitsOk(sb, blocks, use) && a in use && use[a] == Slot(i, SlotOf(bn)) && 0 <= bn
    ensures Keeps(blocks, blocks[a := content], use, false)
  {
    hide Marked;
  }

  lemma OtherFile(sb: Super, blocks: Blocks, inodes: Inodes, use: Uses, a: int, content: seq<int>, i: int, k: int, i': int)
    requires Inv(sb, blocks, inodes, use) && a in use && use[a] == Slot(i, k) && i' in inodes && i' != i && k != NDIRECT
    ensures SameFile(blocks, inodes[i'], blocks[a := content], inodes[i'])
  {
    hide AddrAt, Marked;
    var ip, blocks' := inodes[i'], blocks[a := content];
    forall o | 0 <= o < MAXFILE * BSIZE ensures ByteAt(blocks', ip, o) == ByteAt(blocks, ip, o) {
      var k' := SlotOf(o / BSIZE);
      assert IsSlot(inodes, i', k');
      AddrFrame(blocks, blocks', inodes, use, -1, 0, i', k');
      assert AddrAt(blocks, ip, k') != 0 ==> use[AddrAt(blocks, ip, k')] == Slot(i', k');
    }
  }

  lemma ThisFile(sb: Super, blocks: Blocks, inodes: Inodes, use: Uses, content: seq<int>, i: int, bn: int, o: int)
    requires Inv(sb, blocks, inodes, use) && i in inodes && |inodes[i].addrs| == 13 && 0 <= bn < MAXFILE && Bytes(content)
    requires AddrAt(blocks, inodes[i], SlotOf(bn)) != 0 && 0 <= o < MAXFILE * BSIZE
    requires Keeps(blocks, blocks[AddrAt(blocks, inodes[i], SlotOf(bn)) := content], use, false)
    ensures var blocks' := blocks[AddrAt(blocks, inodes[i], SlotOf(bn)) := content];
            ByteAt(blocks', inodes[i], o) == if o / BSIZE == bn then content[o % BSIZE] else ByteAt(blocks, inodes[i], o)
  {
    hide AddrAt, Marked, FilesOk;
    var a, k := AddrAt(blocks, inodes[i], SlotOf(bn)), SlotOf(o / BSIZE);
    var blocks' := blocks[a := content];
    assert IsSlot(inodes, i, k) && IsSlot(inodes, i, SlotOf(bn));
    AddrFrame(blocks, blocks', inodes, use, -1, 0, i, k);
    assert use[a] == Slot(i, SlotOf(bn));
    assert AddrAt(blocks, inodes[i], k) != 0 ==> use[AddrAt(blocks, inodes[i], k)] == Slot(i, k);
  }

  /** A new size, with every block below it mapped. */
  lemma SizeOk(sb: Super, blocks: Blocks, inodes: Inodes, use: Uses, hi: int, i: int, size: int)
    requires InvBut(sb, blocks, inodes, use, hi, if hi < 0 then 0 else 13) && i in inodes && (hi == -1 || hi == i)
    requires FileOk(blocks, inodes[i].(size := size))
    ensures Inv(sb, blocks, inodes[i := inodes[i].(size := size)], use)
    ensures SameFiles(blocks, inodes, blocks, inodes[i := inodes[i].(size := size)], i)
  {
    hide Marked;
    var ip := inodes[i].(size := size);
    var inodes' := inodes[i := ip];
    forall k | 0 <= k < SLOTS ensures AddrAt(blocks, ip, k) == AddrAt(blocks, inodes[i], k) { }
    hide AddrAt;
    assert SlotsOk(blocks, inodes', use, -1, 0);
    assert forall bn | 0 <= bn && bn * BSIZE < size :: AddrAt(blocks, ip, SlotOf(bn)) != 0;
    assert FilesOk(blocks, inodes', -1);
    hide ByteAt;
  }

  // ---------------------------------------------------------------- writing an inode

  lemma InodeFits(sb: Super, blocks: Blocks, inodes: Inodes, use: Uses, i: int)
    requires Inv(sb, blocks, inodes, use) && i in inodes
    ensures i >= 0 && 0 < sb.inodestart <= IBlock(sb, i) < sb.bmapstart < sb.nmeta && Words(inodes[i])
    ensures IBlock(sb, i) in blocks && Bytes(blocks[IBlock(sb, i)])
  {
    hide AddrAt, Marked;
    assert FileOk(blocks, inodes[i]);
    forall k | 0 <= k < 13 ensures 0 <= inodes[i].addrs[k] < U32 {
      assert IsSlot(inodes, i, k);
      DirectAddr(blocks, inodes[i], k);
    }
  }

  lemma DirectAddr(blocks: Blocks, ip: Inode, k: int)
    requires |ip.addrs| == 13 && 0 <= k <= NDIRECT
    ensures AddrAt(blocks, ip, k) == ip.addrs[k]
  {
  }

  /** iupdate() of inode i changes no file, and no other inode on the disk. */
  lemma InodeWriteOk(sb: Super, blocks: Blocks, inodes: Inodes, use: Uses, i: int)
    requires Inv(sb, blocks, inodes, use) && i in inodes
    ensures var ib := IBlock(sb, i);
            && i >= 0 && ib in blocks && Bytes(blocks[ib]) && |inodes[i].addrs| == 13
            && var blocks' := blocks[ib := SetInode(blocks[ib], i, inodes[i])];
               && Inv(sb, blocks', inodes, use) && SameFiles(blocks, inodes, blocks', inodes, -1) && OnDisk(sb, blocks', i, inodes[i])
               && (forall k | 0 <= k < SLOTS :: AddrAt(blocks', inodes[i], k) == AddrAt(blocks, inodes[i], k))
               && (forall j, ip | j != i && OnDisk(sb, blocks, j, ip) :: OnDisk(sb, blocks', j, ip))
  {
    hide Marked, AddrAt, ByteAt, SlotsOk, FilesOk, SetInode, ReadInode, SameFile, Words;
    InodeFits(sb, blocks, inodes, use, i);
    var ib := IBlock(sb, i);
    InodeRoundTrip(blocks[ib], i, inodes[i], i);
    WordsAre(inodes[i]);
    var blocks' := blocks[ib := SetInode(blocks[ib], i, inodes[i])];
    DataFrame(sb, blocks, use, ib, blocks'[ib]);
    assert Keeps(blocks, blocks', use, true);
    SlotsFrame(blocks, blocks', inodes, use, -1, 0);
    FilesFrame(blocks, blocks', inodes, use, -1, 0);
    forall k | 0 <= k < SLOTS ensures AddrAt(blocks', inodes[i], k) == AddrAt(blocks, inodes[i], k) {
      AddrFrame(blocks, blocks', inodes, use, -1, 0, i, k);
    }
    forall j, ip | j != i && OnDisk(sb, blocks, j, ip) ensures OnDisk(sb, blocks', j, ip) {
      InodeRoundTrip(blocks[ib], i, inodes[i], j);
      SameInodeSlot(i, j);
    }
  }

  lemma WordsAre(ip: Inode)
    requires Words(ip)
    ensures |ip.addrs| == 13
  {
  }

  lemma SameInodeSlot(i: int, j: int)
    requires 0 <= i && 0 <= j
    ensures i / IPB == j / IPB && i % IPB == j % IPB ==> i == j
  {
  }

  // ---------------------------------------------------------------- freeing

  /** A block leaves the bitmap while it is still in slot k <= 12, which is then cleared. */
  lemma FreeAddrOk(sb: Super, blocks: Blocks, inodes: Inodes, use: Uses, i: int, k: int)
    requires i in inodes && |inodes[i].addrs| == 13 && 0 <= k <= NDIRECT && i >= 0 && inodes[i].addrs[k] != 0
    requires InvBut(sb, blocks, inodes, use, i, if k == NDIRECT then SLOTS else 13)
    ensures var b := inodes[i].addrs[k];
            && b in use && use[b] == Slot(i, k) && 0 <= b && BBlock(sb, b) in blocks && |blocks[BBlock(sb, b)]| == BSIZE
            && InvBut(sb, Mark(sb, blocks, b, false), WithAddr(inodes, i, k, 0), use[b := Unused], i, 13)
            && SameFiles(blocks, inodes, Mark(sb, blocks, b, false), WithAddr(inodes, i, k, 0), i)
  {
    hide AddrAt, Marked, Mark, SlotsOk, FilesOk, ByteAt, SameFile;
    var b, hk := inodes[i].addrs[k], if k == NDIRECT then SLOTS else 13;
    AddrOwned(sb, blocks, inodes, use, i, k, hk);
    MarkOk(sb, blocks, use, b, false, Unused);
    MarkFacts(sb, blocks, b, false);
    var blocks' := Mark(sb, blocks, b, false);
    assert Keeps(blocks, blocks', use, true);
    SlotsFrame(blocks, blocks', inodes, use, i, hk);
    FilesFrame(blocks, blocks', inodes, use, i, hk);
    ClearAddr(sb, blocks', inodes, use, i, k, hk);
    SameOthers(blocks, inodes, blocks', WithAddr(inodes, i, k, 0), i);
  }

  lemma AddrOwned(sb: Super, blocks: Blocks, inodes: Inodes, use: Uses, i: int, k: int, hk: int)
    requires InvBut(sb, blocks, inodes, use, i, hk) && i in inodes && |inodes[i].addrs| == 13 && 0 <= k <= NDIRECT
    requires inodes[i].addrs[k] != 0
    ensures var b := inodes[i].addrs[k];
            b in use && use[b] == Slot(i, k) && sb.nmeta <= b < sb.size && b in blocks && Marked(sb, blocks, b)
    ensures 0 in use && use[0] == Meta && LayoutOk(sb)
  {
    hide Marked;
    assert IsSlot(inodes, i, k) && AddrAt(blocks, inodes[i], k) == inodes[i].addrs[k];
    BlockZero(sb, blocks, use);
  }

  lemma ClearAddr(sb: Super, blocks: Blocks, inodes: Inodes, use: Uses, i: int, k: int, hk: int)
    requires SlotsOk(blocks, inodes, use, i, hk) && FilesOk(blocks, inodes, i) && i in inodes && |inodes[i].addrs| == 13
    requires 0 <= k <= NDIRECT && inodes[i].addrs[k] != 0 && hk == if k == NDIRECT then SLOTS else 13
    requires inodes[i].addrs[k] in use && use[inodes[i].addrs[k]] == Slot(i, k) && 0 in use && use[0] == Meta
    ensures SlotsOk(blocks, WithAddr(inodes, i, k, 0), use[inodes[i].addrs[k] := Unused], i, 13)
    ensures FilesOk(blocks, WithAddr(inodes, i, k, 0), i)
  {
    var b, inodes', use' := inodes[i].addrs[k], WithAddr(inodes, i, k, 0), use[inodes[i].addrs[k] := Unused];
    forall i', k' | IsSlot(inodes, i', k')
      ensures AddrAt(blocks, inodes'[i'], k')
              == if i == i' && (k == k' || (k == NDIRECT && k' > NDIRECT)) then 0 else AddrAt(blocks, inodes[i'], k')
    {
      ClearedAddr(blocks, inodes, i, k, i', k');
    }
    hide AddrAt;
    forall i', k' | IsSlot(inodes', i', k') && AddrAt(blocks, inodes'[i'], k') != 0
      ensures AddrAt(blocks, inodes'[i'], k') in use' && use'[AddrAt(blocks, inodes'[i'], k')] == Slot(i', k')
    {
      assert IsSlot(inodes, i', k');
    }
    forall c | c in use' && use'[c].Slot?
      ensures IsSlot(inodes', use'[c].inum, use'[c].k) && AddrAt(blocks, inodes'[use'[c].inum], use'[c].k) == c
    {
      assert IsSlot(inodes, use[c].inum, use[c].k) && !Stale(use[c].inum, use[c].k, i, hk);
    }
  }

  lemma ClearedAddr(blocks: Blocks, inodes: Inodes, i: int, k: int, i': int, k': int)
    requires i in inodes && |inodes[i].addrs| == 13 && 0 <= k <= NDIRECT && IsSlot(inodes, i', k')
    ensures AddrAt(blocks, WithAddr(inodes, i, k, 0)[i'], k')
            == if i == i' && (k == k' || (k == NDIRECT && k' > NDIRECT)) then 0 else AddrAt(blocks, inodes[i'], k')
  {
  }

  lemma SameOthers(blocks: Blocks, inodes: Inodes, blocks': Blocks, inodes': Inodes, i: int)
    requires SameFiles(blocks, inodes, blocks', inodes, i) && i in inodes && i in inodes'
    requires inodes' == inodes[i := inodes'[i]]
    ensures SameFiles(blocks, inodes, blocks', inodes', i)
  {
    hide SameFile;
  }

  /** The block in entry j of the indirect block leaves the bitmap; the entry goes stale. */
  lemma FreeEntryOk(sb: Super, blocks: Blocks, inodes: Inodes, use: Uses, i: int, j: int)
    requires i in inodes && |inodes[i].addrs| == 13 && i >= 0 && 0 <= j < NINDIRECT && InvBut(sb, blocks, inodes, use, i, 13 + j)
    ensures var b := AddrAt(blocks, inodes[i], 13 + j);
            if b == 0 then InvBut(sb, blocks, inodes, use, i, 14 + j)
            else
              && b in use && use[b] == Slot(i, 13 + j) && 0 <= b && BBlock(sb, b) in blocks && |blocks[BBlock(sb, b)]| == BSIZE
              && Marked(sb, blocks, b)
              && InvBut(sb, Mark(sb, blocks, b, false), inodes, use[b := Unused], i, 14 + j)
              && SameFiles(blocks, inodes, Mark(sb, blocks, b, false), inodes, i)
  {
    hide AddrAt, Marked, Mark, SlotsOk, FilesOk, ByteAt, SameFile;
    var b := AddrAt(blocks, inodes[i], 13 + j);
    BlockZero(sb, blocks, use);
    assert IsSlot(inodes, i, 13 + j);
    GoneStale(blocks, inodes, use, i, j);
    if b != 0 {
      SlotOwned(sb, blocks, inodes, use, i, 13 + j, i, 13 + j);
      MarkOk(sb, blocks, use, b, false, Unused);
      MarkFacts(sb, blocks, b, false);
      var blocks' := Mark(sb, blocks, b, false);
      assert Keeps(blocks, blocks', use, true);
      assert Keeps(blocks, blocks', use[b := Unused], false);
      SlotsFrame(blocks, blocks', inodes, use[b := Unused], i, 14 + j);
      FilesFrame(blocks, blocks', inodes, use, i, 13 + j);
    }
  }

  lemma GoneStale(blocks: Blocks, inodes: Inodes, use: Uses, i: int, j: int)
    requires i in inodes && |inodes[i].addrs| == 13 && 0 <= j < NINDIRECT && SlotsOk(blocks, inodes, use, i, 13 + j)
    requires 0 in use && use[0] == Meta
    ensures var b := AddrAt(blocks, inodes[i], 13 + j);
            if b == 0 then SlotsOk(blocks, inodes, use, i, 14 + j) else b in use && SlotsOk(blocks, inodes, use[b := Unused], i, 14 + j)
  {
    hide AddrAt;
    assert IsSlot(inodes, i, 13 + j);
  }

  // ---------------------------------------------------------------- whole calls

  /** Slot k is needed for some of blocks [lo, hi) of a file. */
  predicate InSpan(k: int, lo: int, hi: int) {
    if k < NDIRECT then lo <= k < hi else if k == NDIRECT then hi > NDIRECT else lo < k <= hi
  }

  /** Only unused blocks were taken, and only for slots of inode i that blocks [lo, hi) need. */
  ghost predicate Taken(use: Uses, use': Uses, i: int, lo: int, hi: int) {
    && use'.Keys == use.Keys
    && forall b | b in use ::
         use'[b] == use[b] || (use[b] == Unused && use'[b].Slot? && use'[b].inum == i && InSpan(use'[b].k, lo, hi))
  }

  /** Exactly the blocks of inode i are unused now. */
  ghost predicate Dropped(use: Uses, use': Uses, i: int) {
    && use'.Keys == use.Keys
    && forall b | b in use :: use'[b] == if use[b].Slot? && use[b].inum == i then Unused else use[b]
  }

  ghost predicate Full(use: Uses) { forall b | b in use :: use[b] != Unused }

  /** Every block that came into use is in the log. */
  ghost predicate NewLogged(use: Uses, use': Uses, l: set<int>) {
    use'.Keys == use.Keys && forall b | b in use && use[b] == Unused && use'[b] != Unused :: b in l
  }

  lemma NewLoggedTrans(use: Uses, use': Uses, use'': Uses, l: set<int>, l': set<int>)
    requires NewLogged(use, use', l) && NewLogged(use', use'', l') && l <= l'
    ensures NewLogged(use, use'', l')
  {
  }

  // ---------------------------------------------------------------- how many blocks a write needs

  /** How many blocks are unused. */
  ghost function Free(use: Uses): nat { |UnusedIn(use)| }

  ghost function UnusedIn(use: Uses): set<int> { set b | b in use && use[b] == Unused }

  lemma FreeNone(use: Uses)
    ensures Full(use) <==> Free(use) == 0
  {
    forall b | b in use ensures Free(use) == 0 ==> use[b] != Unused { assert b !in UnusedIn(use) <==> use[b] != Unused; }
    if Full(use) {
      forall b ensures b !in UnusedIn(use) { if b in use { assert use[b] != Unused; } }
      assert UnusedIn(use) == {};
    }
  }

  lemma FreeOneLess(use: Uses, b: int, u: Use)
    requires b in use && use[b] == Unused && u != Unused
    ensures Free(use[b := u]) == Free(use) - 1
  {
    assert UnusedIn(use[b := u]) == UnusedIn(use) - {b};
    assert b in UnusedIn(use);
  }

  /** How many blocks bmap() has to add for block bn of a file. */
  ghost function Lacks(blocks: Blocks, ip: Inode, bn: int): nat
    requires |ip.addrs| == 13 && 0 <= bn < MAXFILE
  {
    (if AddrAt(blocks, ip, SlotOf(bn)) == 0 then 1 else 0) + (if bn >= NDIRECT && ip.addrs[NDIRECT] == 0 then 1 else 0)
  }

  /** How many blocks are missing for the k blocks of a file from block `first`, the indirect block counted once. */
  ghost function Need(blocks: Blocks, ip: Inode, first: int, k: nat): nat
    requires |ip.addrs| == 13 && 0 <= first && first + k <= MAXFILE
  {
    if k == 0 then 0 else
    var bn := first + k - 1;
    Need(blocks, ip, first, k - 1) + (if AddrAt(blocks, ip, SlotOf(bn)) == 0 then 1 else 0)
    + (if bn >= NDIRECT && ip.addrs[NDIRECT] == 0 && (k == 1 || bn == NDIRECT) then 1 else 0)
  }

  lemma {:induction false} NeedMonotone(blocks: Blocks, ip: Inode, first: int, j: nat, k: nat)
    requires |ip.addrs| == 13 && 0 <= first && first + k <= MAXFILE && j <= k
    ensures Need(blocks, ip, first, j) <= Need(blocks, ip, first, k)
    decreases k - j
  {
    if j < k { NeedMonotone(blocks, ip, first, j + 1, k); }
  }

  /** After k rounds, what the next round lacks is what the file lacked for it to begin with. */
  lemma RoundLacks(sb: Super, b0: Blocks, n0: Inodes, u0: Uses, b1: Blocks, n1: Inodes, u1: Uses, i: int, first: int, k: nat)
    requires Inv(sb, b0, n0, u0) && Inv(sb, b1, n1, u1) && Taken(u0, u1, i, first, first + k) && i in n0 && i in n1
    requires |n0[i].addrs| == 13 && |n1[i].addrs| == 13 && 0 <= first && first + k < MAXFILE
    requires k == 0 ==> b1 == b0 && n1 == n0
    requires k > 0 && first + k > NDIRECT ==> n1[i].addrs[NDIRECT] != 0
    ensures Need(b0, n0[i], first, k + 1) == Need(b0, n0[i], first, k) + Lacks(b1, n1[i], first + k)
  {
    hide AddrAt, BitsOk, BlocksOk, FilesOk;
    if k > 0 {
      SameLack(sb, b0, n0, u0, b1, n1, u1, i, first, k, SlotOf(first + k));
      if first + k == NDIRECT {
        SameLack(sb, b0, n0, u0, b1, n1, u1, i, first, k, NDIRECT);
        DirectAddr(b0, n0[i], NDIRECT);
        DirectAddr(b1, n1[i], NDIRECT);
      }
    }
  }

  lemma SameLack(sb: Super, b0: Blocks, n0: Inodes, u0: Uses, b1: Blocks, n1: Inodes, u1: Uses, i: int, first: int, k: nat, slot: int)
    requires Inv(sb, b0, n0, u0) && Inv(sb, b1, n1, u1) && Taken(u0, u1, i, first, first + k) && i in n0 && i in n1
    requires |n0[i].addrs| == 13 && |n1[i].addrs| == 13 && 0 <= slot < SLOTS && !InSpan(slot, first, first + k)
    ensures AddrAt(b1, n1[i], slot) == 0 <==> AddrAt(b0, n0[i], slot) == 0
  {
    hide AddrAt, BitsOk, BlocksOk, FilesOk;
    assert IsSlot(n0, i, slot) && IsSlot(n1, i, slot);
    if AddrAt(b0, n0[i], slot) != 0 { TakenKeepsAddrs(b0, n0, u0, b1, n1, u1, i, first, first + k, i, slot); }
  }

  /** What was in a slot stays there. */
  lemma TakenKeepsAddrs(blocks: Blocks, inodes: Inodes, use: Uses, blocks': Blocks, inodes': Inodes, use': Uses,
                        i: int, lo: int, hi: int, j: int, k: int)
    requires SlotsOk(blocks, inodes, use, -1, 0) && SlotsOk(blocks', inodes', use', -1, 0) && Taken(use, use', i, lo, hi)
    requires IsSlot(inodes, j, k) && AddrAt(blocks, inodes[j], k) != 0
    ensures IsSlot(inodes', j, k) && AddrAt(blocks', inodes'[j], k) == AddrAt(blocks, inodes[j], k)
  {
    hide AddrAt;
    var b := AddrAt(blocks, inodes[j], k);
    assert use[b] == Slot(j, k);
    assert use'[b] == Slot(j, k);
  }

  lemma TakenTrans(use: Uses, use': Uses, use'': Uses, i: int, lo: int, mid: int, hi: int)
    requires Taken(use, use', i, lo, mid) && (Taken(use', use'', i, lo, hi) || Taken(use', use'', i, mid, hi)) && lo <= mid <= hi
    ensures Taken(use, use'', i, lo, hi)
  {
  }

  lemma SameFilesTrans(b0: Blocks, n0: Inodes, b1: Blocks, n1: Inodes, b2: Blocks, n2: Inodes, hi: int)
    requires SameFiles(b0, n0, b1, n1, hi) && SameFiles(b1, n1, b2, n2, hi)
    ensures SameFiles(b0, n0, b2, n2, hi)
  {
    hide ByteAt;
    forall i | i in n0 && i != hi ensures SameFile(b0, n0[i], b2, n2[i]) {
      assert SameFile(b0, n0[i], b1, n1[i]) && SameFile(b1, n1[i], b2, n2[i]);
    }
  }

  lemma SameFilesLess(b0: Blocks, n0: Inodes, b1: Blocks, n1: Inodes, hi: int)
    requires SameFiles(b0, n0, b1, n1, -1) && -1 !in n0
    ensures SameFiles(b0, n0, b1, n1, hi)
  {
    hide SameFile;
  }

  lemma SameFilesRefl(blocks: Blocks, inodes: Inodes, hi: int)
    requires FilesOk(blocks, inodes, hi)
    ensures SameFiles(blocks, inodes, blocks, inodes, hi)
  {
    hide ByteAt, FileOk;
  }

  predicate InBitmap(sb: Super, b: int) { sb.bmapstart <= b <= BBlock(sb, sb.size - 1) }

  /** Every block that changed was given to the log, and besides bitmap blocks only those in `s`. */
  ghost predicate LogCovers(sb: Super, blocks: Blocks, logged: set<int>, blocks': Blocks, logged': set<int>, s: set<int>) {
    && logged <= logged' && blocks'.Keys == blocks.Keys
    && (forall b | b in blocks && blocks'[b] != blocks[b] :: b in logged' && (InBitmap(sb, b) || (b in s && b != 0)))
    && (forall b | b in logged' && b !in logged :: InBitmap(sb, b) || (b in s && b != 0))
  }

  lemma LogCoversTrans(sb: Super, b0: Blocks, l0: set<int>, b1: Blocks, l1: set<int>, b2: Blocks, l2: set<int>, s: set<int>, s': set<int>)
    requires LogCovers(sb, b0, l0, b1, l1, s) && LogCovers(sb, b1, l1, b2, l2, s')
    ensures LogCovers(sb, b0, l0, b2, l2, s + s')
  {
    hide InBitmap;
  }

  lemma BitmapBlock(sb: Super, b: int)
    requires LayoutOk(sb) && 0 <= b < sb.size
    ensures InBitmap(sb, BBlock(sb, b))
  {
  }

  lemma LogMore(sb: Super, b0: Blocks, l0: set<int>, b1: Blocks, l1: set<int>, s: set<int>, s': set<int>)
    requires LogCovers(sb, b0, l0, b1, l1, s) && forall b | b in s && b != 0 :: b in s'
    ensures LogCovers(sb, b0, l0, b1, l1, s')
  {
    hide InBitmap;
  }

  lemma LogOne(sb: Super, b0: Blocks, l0: set<int>, b1: Blocks, l1: set<int>, b: int, content: seq<int>, s: set<int>)
    requires LogCovers(sb, b0, l0, b1, l1, s) && b in b1 && b in s && b != 0
    ensures LogCovers(sb, b0, l0, b1[b := content], l1 + {b}, s)
  {
    hide InBitmap;
  }

  // ---------------------------------------------------------------- writing a range of a file

  /** `wr` bytes of `data` at offset `off` of file i, and nothing else, changed since (b0, n0, u0), in k rounds. */
  ghost predicate Wrote(b0: Blocks, n0: Inodes, u0: Uses, b: Blocks, n: Inodes, u: Uses, i: int, off: int, data: seq<int>, wr: int, k: int) {
    && SameFiles(b0, n0, b, n, i) && Taken(u0, u, i, off / BSIZE, off / BSIZE + k) && 0 <= off && 0 <= wr <= |data| && 0 <= k
    && i in n0 && i in n && n == n0[i := n[i]] && |n0[i].addrs| == 13 && |n[i].addrs| == 13 && n[i].size == n0[i].size
    && forall o | 0 <= o < MAXFILE * BSIZE ::
         ByteAt(b, n[i], o) == if off <= o < off + wr then data[o - off] else ByteAt(b0, n0[i], o)
  }

  lemma WroteNothing(b: Blocks, n: Inodes, u: Uses, i: int, off: int, data: seq<int>)
    requires FilesOk(b, n, -1) && i in n && 0 <= off
    ensures Wrote(b, n, u, b, n, u, i, off, data, 0, 0)
  {
    hide ByteAt, FileOk;
    SameFilesRefl(b, n, -1);
    SameFilesLess(b, n, b, n, i);
  }

  lemma WroteAfterBmap(b0: Blocks, n0: Inodes, u0: Uses, b1: Blocks, n1: Inodes, u1: Uses, b2: Blocks, n2: Inodes, u2: Uses,
                       i: int, off: int, data: seq<int>, wr: int, k: int)
    requires Wrote(b0, n0, u0, b1, n1, u1, i, off, data, wr, k) && SameFiles(b1, n1, b2, n2, -1) && i >= 0 && -1 !in n1 && i in n2
    requires Taken(u1, u2, i, off / BSIZE + k, off / BSIZE + k + 1) && n2 == n1[i := n2[i]]
    ensures Wrote(b0, n0, u0, b2, n2, u2, i, off, data, wr, k + 1)
  {
    hide ByteAt;
    SameFilesLess(b1, n1, b2, n2, i);
    SameFilesTrans(b0, n0, b1, n1, b2, n2, i);
    TakenTrans(u0, u1, u2, i, off / BSIZE, off / BSIZE + k, off / BSIZE + k + 1);
    assert SameFile(b1, n1[i], b2, n2[i]);
  }

  lemma WroteChunk(sb: Super, b0: Blocks, n0: Inodes, u0: Uses, b1: Blocks, n1: Inodes, u1: Uses,
                   i: int, off: int, data: seq<int>, tot: int, m: int, k: int)
    requires Inv(sb, b1, n1, u1) && Wrote(b0, n0, u0, b1, n1, u1, i, off, data, tot, k) && 0 <= tot <= tot + m <= |data|
    requires off + tot < MAXFILE * BSIZE && (off + tot) % BSIZE + m <= BSIZE
    requires forall k | 0 <= k < |data| :: 0 <= data[k] < 256
    requires AddrAt(b1, n1[i], SlotOf((off + tot) / BSIZE)) != 0
    ensures var addr := AddrAt(b1, n1[i], SlotOf((off + tot) / BSIZE));
            && addr in b1 && Bytes(b1[addr])
            && var b2 := b1[addr := Splice(b1[addr], (off + tot) % BSIZE, data[tot..tot + m])];
               && Inv(sb, b2, n1, u1) && Wrote(b0, n0, u0, b2, n1, u1, i, off, data, tot + m, k)
               && forall j | 0 <= j < SLOTS :: AddrAt(b2, n1[i], j) == AddrAt(b1, n1[i], j)
  {
    hide AddrAt, ByteAt, Inv, InvBut, SameFiles, Taken;
    var o := off + tot;
    var addr := AddrAt(b1, n1[i], SlotOf(o / BSIZE));
    assert IsSlot(n1, i, SlotOf(o / BSIZE));
    InvIs(sb, b1, n1, u1);
    SlotOwned(sb, b1, n1, u1, -1, 0, i, SlotOf(o / BSIZE));
    var content := Splice(b1[addr], o % BSIZE, data[tot..tot + m]);
    SpliceBytes(b1[addr], o % BSIZE, data, tot, m);
    var b2 := b1[addr := content];
    WriteOk(sb, b1, n1, u1, i, o / BSIZE, content);
    SameFilesTrans(b0, n0, b1, n1, b2, n1, i);
    forall p | 0 <= p < MAXFILE * BSIZE
      ensures ByteAt(b2, n1[i], p) == if off <= p < off + tot + m then data[p - off] else ByteAt(b0, n0[i], p)
    {
      if p / BSIZE == o / BSIZE { ThisByte(b1, n1[i], p); }
      ChunkByte(b1[addr], off, data, tot, m, p, ByteAt(b0, n0[i], p), ByteAt(b1, n1[i], p), ByteAt(b2, n1[i], p));
    }
  }

  /** Byte p before all writing (y0), before this chunk (y1) and after it (y2). */
  lemma ChunkByte(block: seq<int>, off: int, data: seq<int>, tot: int, m: int, p: int, y0: int, y1: int, y2: int)
    requires |block| == BSIZE && 0 <= off && 0 <= tot <= tot + m <= |data| && 0 <= p && (off + tot) % BSIZE + m <= BSIZE
    requires y1 == if off <= p < off + tot then data[p - off] else y0
    requires p / BSIZE == (off + tot) / BSIZE ==> y1 == block[p % BSIZE]
    requires y2 == if p / BSIZE == (off + tot) / BSIZE then Splice(block, (off + tot) % BSIZE, data[tot..tot + m])[p % BSIZE] else y1
    ensures y2 == if off <= p < off + tot + m then data[p - off] else y0
  {
    SameBlock(off + tot, p);
  }

  lemma SpliceBytes(block: seq<int>, p: int, data: seq<int>, tot: int, m: int)
    requires Bytes(block) && 0 <= p && 0 <= m && p + m <= BSIZE && 0 <= tot <= tot + m <= |data|
    requires forall k | 0 <= k < |data| :: 0 <= data[k] < 256
    ensures Bytes(Splice(block, p, data[tot..tot + m]))
  {
  }

  lemma InvIs(sb: Super, blocks: Blocks, inodes: Inodes, use: Uses)
    requires Inv(sb, blocks, inodes, use)
    ensures InvBut(sb, blocks, inodes, use, -1, 0)
  {
  }

  lemma SameBlock(o: int, p: int)
    requires 0 <= o && 0 <= p
    ensures p / BSIZE == o / BSIZE ==> p % BSIZE - o % BSIZE == p - o
    ensures o <= p < o + BSIZE - o % BSIZE ==> p / BSIZE == o / BSIZE
  {
  }

  lemma ThisByte(blocks: Blocks, ip: Inode, o: int)
    requires |ip.addrs| == 13 && 0 <= o < MAXFILE * BSIZE
    requires var a := AddrAt(blocks, ip, SlotOf(o / BSIZE)); a != 0 && a in blocks && |blocks[a]| == BSIZE
    ensures ByteAt(blocks, ip, o) == blocks[AddrAt(blocks, ip, SlotOf(o / BSIZE))][o % BSIZE]
  {
  }

  /** Every block below byte `lim` is mapped. */
  ghost predicate MappedTo(blocks: Blocks, ip: Inode, lim: int) {
    |ip.addrs| == 13 && lim <= MAXFILE * BSIZE && forall bn | 0 <= bn && bn * BSIZE < lim :: AddrAt(blocks, ip, SlotOf(bn)) != 0
  }

  lemma MappedAfterBmap(sb: Super, b1: Blocks, n1: Inodes, u1: Uses, b2: Blocks, n2: Inodes, u2: Uses,
                        i: int, lo: int, hi: int, lim: int)
    requires Inv(sb, b1, n1, u1) && Inv(sb, b2, n2, u2) && Taken(u1, u2, i, lo, hi) && i in n1 && i in n2 && MappedTo(b1, n1[i], lim)
    ensures MappedTo(b2, n2[i], lim)
  {
    hide AddrAt, BitsOk, BlocksOk, FileOk;
    forall bn | 0 <= bn && bn * BSIZE < lim ensures AddrAt(b2, n2[i], SlotOf(bn)) != 0 {
      assert IsSlot(n1, i, SlotOf(bn));
      TakenKeepsAddrs(b1, n1, u1, b2, n2, u2, i, lo, hi, i, SlotOf(bn));
    }
  }

  lemma MappedMore(blocks: Blocks, ip: Inode, lim: int, lim': int)
    requires MappedTo(blocks, ip, lim) && 0 <= lim <= lim' <= MAXFILE * BSIZE && lim' <= (lim / BSIZE + 1) * BSIZE
    requires lim < MAXFILE * BSIZE && AddrAt(blocks, ip, SlotOf(lim / BSIZE)) != 0
    ensures MappedTo(blocks, ip, lim')
  {
    hide AddrAt;
    forall bn | 0 <= bn && bn * BSIZE < lim' ensures AddrAt(blocks, ip, SlotOf(bn)) != 0 {
      assert bn * BSIZE < lim || bn == lim / BSIZE;
    }
  }

  // ---------------------------------------------------------------- how much a write logs

  /** The indirect block and the k data blocks from block `first` of a file. */
  ghost function Touched(blocks: Blocks, ip: Inode, first: int, k: nat): set<int>
    requires |ip.addrs| == 13 && 0 <= first && first + k <= MAXFILE
  {
    if k == 0 then {ip.addrs[NDIRECT]} else Touched(blocks, ip, first, k - 1) + {AddrAt(blocks, ip, SlotOf(first + k - 1))}
  }

  lemma {:induction false} TouchedSize(blocks: Blocks, ip: Inode, first: int, k: nat)
    requires |ip.addrs| == 13 && 0 <= first && first + k <= MAXFILE
    ensures |Touched(blocks, ip, first, k)| <= k + 1
  {
    if k > 0 { TouchedSize(blocks, ip, first, k - 1); }
  }

  lemma {:induction false} TouchedKept(sb: Super, b1: Blocks, n1: Inodes, u1: Uses, b2: Blocks, n2: Inodes, u2: Uses,
                                       i: int, lo: int, hi: int, first: int, k: nat, b: int)
    requires Inv(sb, b1, n1, u1) && Inv(sb, b2, n2, u2) && Taken(u1, u2, i, lo, hi) && i in n1 && i in n2
    requires |n1[i].addrs| == 13 && |n2[i].addrs| == 13 && 0 <= first && first + k <= MAXFILE
    requires b in Touched(b1, n1[i], first, k) && b != 0
    ensures b in Touched(b2, n2[i], first, k)
  {
    hide BitsOk, BlocksOk, FilesOk;
    if k == 0 {
      assert IsSlot(n1, i, NDIRECT) && AddrAt(b1, n1[i], NDIRECT) == b;
      TakenKeepsAddrs(b1, n1, u1, b2, n2, u2, i, lo, hi, i, NDIRECT);
    } else if b == AddrAt(b1, n1[i], SlotOf(first + k - 1)) {
      assert IsSlot(n1, i, SlotOf(first + k - 1));
      TakenKeepsAddrs(b1, n1, u1, b2, n2, u2, i, lo, hi, i, SlotOf(first + k - 1));
    } else {
      TouchedKept(sb, b1, n1, u1, b2, n2, u2, i, lo, hi, first, k - 1, b);
    }
  }

  lemma {:induction false} TouchedSame(b1: Blocks, ip: Inode, b2: Blocks, ip': Inode, first: int, k: nat)
    requires |ip.addrs| == 13 && ip'.addrs == ip.addrs && 0 <= first && first + k <= MAXFILE
    requires forall k | 0 <= k < SLOTS :: AddrAt(b2, ip', k) == AddrAt(b1, ip, k)
    ensures Touched(b2, ip', first, k) == Touched(b1, ip, first, k)
  {
    if k > 0 { TouchedSame(b1, ip, b2, ip', first, k - 1); }
  }

  /** The block for a later round is none of those. */
  lemma {:induction false} TouchedSlot(sb: Super, blocks: Blocks, inodes: Inodes, use: Uses, i: int, first: int, k: nat, b: int)
    requires Inv(sb, blocks, inodes, use) && i in inodes && |inodes[i].addrs| == 13 && 0 <= first && first + k < MAXFILE && b != 0
    requires b in Touched(blocks, inodes[i], first, k)
    ensures b in use && use[b].Slot? && (use[b].k == NDIRECT || SlotOf(first) <= use[b].k < SlotOf(first + k))
  {
    hide BitsOk, BlocksOk, FilesOk, AddrAt;
    if k == 0 {
      DirectAddr(blocks, inodes[i], NDIRECT);
      assert IsSlot(inodes, i, NDIRECT);
    } else if b == AddrAt(blocks, inodes[i], SlotOf(first + k - 1)) {
      assert IsSlot(inodes, i, SlotOf(first + k - 1));
    } else {
      TouchedSlot(sb, blocks, inodes, use, i, first, k - 1, b);
    }
  }

  lemma TouchedHasLast(blocks: Blocks, ip: Inode, first: int, k: nat)
    requires |ip.addrs| == 13 && 0 <= first && 0 < k && first + k <= MAXFILE
    ensures AddrAt(blocks, ip, SlotOf(first + k - 1)) in Touched(blocks, ip, first, k)
  {
  }

  lemma BitmapLow(sb: Super, blocks: Blocks, inodes: Inodes, use: Uses, b: int)
    requires Inv(sb, blocks, inodes, use) && sb.nmeta <= b
    ensures !InBitmap(sb, b)
  {
  }

  /** The blocks of a file are data blocks. */
  lemma {:induction false} TouchedIsData(sb: Super, blocks: Blocks, inodes: Inodes, use: Uses, i: int, first: int, k: nat, b: int)
    requires Inv(sb, blocks, inodes, use) && i in inodes && |inodes[i].addrs| == 13 && 0 <= first && first + k <= MAXFILE
    requires b in Touched(blocks, inodes[i], first, k) && b != 0
    ensures sb.nmeta <= b < sb.size && b in use && use[b].Slot? && use[b].inum == i
  {
    hide BitsOk, BlocksOk, FilesOk, AddrAt;
    if k == 0 {
      DirectAddr(blocks, inodes[i], NDIRECT);
      assert IsSlot(inodes, i, NDIRECT);
      SlotOwned(sb, blocks, inodes, use, -1, 0, i, NDIRECT);
    } else if b == AddrAt(blocks, inodes[i], SlotOf(first + k - 1)) {
      assert IsSlot(inodes, i, SlotOf(first + k - 1));
      SlotOwned(sb, blocks, inodes, use, -1, 0, i, SlotOf(first + k - 1));
    } else {
      TouchedIsData(sb, blocks, inodes, use, i, first, k - 1, b);
    }
  }

  /** Inodes on the disk stay as they are while only bitmap blocks and data blocks change. */
  lemma InodesUndisturbed(sb: Super, b0: Blocks, l0: set<int>, b1: Blocks, l1: set<int>, s: set<int>, j: int, ip: Inode)
    requires LogCovers(sb, b0, l0, b1, l1, s) && (forall b | b in s && b != 0 :: sb.nmeta <= b) && sb.bmapstart <= sb.nmeta
    requires OnDisk(sb, b0, j, ip) && IBlock(sb, j) < sb.bmapstart
    ensures OnDisk(sb, b1, j, ip)
  {
    hide ReadInode;
  }

  lemma TouchedHasIndirect(blocks: Blocks, ip: Inode, first: int, k: nat)
    requires |ip.addrs| == 13 && 0 <= first && first + k <= MAXFILE
    ensures ip.addrs[NDIRECT] in Touched(blocks, ip, first, k)
  {
  }

  /** How many blocks n bytes from `off` span. */
  function Span(off: int, n: int): int { if n == 0 then 0 else (off + n - 1) / BSIZE - off / BSIZE + 1 }

  /** The contents after a write. */
  function Overwrite(c: seq<int>, off: int, data: seq<int>): seq<int>
    requires 0 <= off <= |c|
  {
    c[..off] + data + if off + |data| <= |c| then c[off + |data|..] else []
  }
}
