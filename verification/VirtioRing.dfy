/**
 * The virtio block driver (virtio_disk.c) and a device that completes each published request once,
 * in any order.  Rings and descriptors are as in sections 2.6 and 5.2 of the OASIS Virtual I/O
 * Device specification 1.1.
 */
module VirtioRing {
  import opened Counting
  import opened Machine
  import opened Params

  const NUM: int := 8
  const U16: int := 0x1_0000

  const FREE: int := -1     // a descriptor's owner while it is on the free list
  const HELD: int := -2     // ... while alloc3_desc() or free_chain() holds it
  const NOBUF: int := 0     // info[i].b == 0

  /** What a descriptor points to: &disk.ops[i], b->data or &disk.info[i].status. */
  datatype Addr = Nowhere | Header(i: int) | Data(b: int) | Status(i: int)

  datatype Desc = Desc(addr: Addr, len: int, flagNext: bool, flagWrite: bool, next: int)
  const NODESC: Desc := Desc(Nowhere, 0, false, false, 0)

  const REQSIZE: int := 16  // sizeof(struct virtio_blk_req)
  const SECTOR: int := 512  // bytes in a sector of the device
  const IOERR: int := 1     // VIRTIO_BLK_S_IOERR

  /** struct virtio_blk_req; type is VIRTIO_BLK_T_IN == 0 or VIRTIO_BLK_T_OUT == 1. */
  datatype Req = Req(kind: int, reserved: int, sector: int)

  /** b->blockno * (BSIZE / 512), in 32 bits. */
  function SectorOf(blockno: int): int { blockno * 2 % U32 }

  type Buffers = map<int, seq<int>>   // b->data, by buffer
  type Sectors = map<int, seq<int>>   // the device's sectors, by number

  /** The device has sectors first, ..., first + n - 1. */
  ghost predicate HasSectors(sectors: Sectors, first: int, n: int) {
    forall k | first <= k < first + n :: k in sectors && |sectors[k]| == SECTOR
  }

  /** Buffer b and the sectors of the block exist. */
  ghost predicate There(data: Buffers, sectors: Sectors, b: int, blockno: int) {
    b in data && |data[b]| == BSIZE && HasSectors(sectors, SectorOf(blockno), BSIZE / SECTOR)
  }

  /** The n sectors from `first`, one after the other. */
  function Gather(sectors: Sectors, first: int, n: nat): (bytes: seq<int>)
    requires HasSectors(sectors, first, n)
    ensures |bytes| == n * SECTOR && forall o | 0 <= o < |bytes| :: bytes[o] == sectors[first + o / SECTOR][o % SECTOR]
  {
    if n == 0 then [] else Gather(sectors, first, n - 1) + sectors[first + n - 1]
  }

  /** `bytes` stored to the n sectors from `first`. */
  function Scatter(sectors: Sectors, first: int, bytes: seq<int>, n: nat): (r: Sectors)
    requires |bytes| == n * SECTOR
    ensures HasSectors(r, first, n) && forall o | 0 <= o < |bytes| :: r[first + o / SECTOR][o % SECTOR] == bytes[o]
    ensures forall k | !(first <= k < first + n) :: (k in r <==> k in sectors) && (k in r ==> r[k] == sectors[k])
  {
    if n == 0 then sectors else Scatter(sectors, first, bytes[..(n - 1) * SECTOR], n - 1)[first + n - 1 := bytes[(n - 1) * SECTOR..]]
  }

  /** The block's sectors hold these bytes. */
  ghost predicate Shows(sectors: Sectors, blockno: int, bytes: seq<int>) {
    && |bytes| == BSIZE && HasSectors(sectors, SectorOf(blockno), BSIZE / SECTOR)
    && forall o | 0 <= o < BSIZE :: bytes[o] == sectors[SectorOf(blockno) + o / SECTOR][o % SECTOR]
  }

  /** The block was written, and no other sector has changed. */
  ghost predicate Written(sectors: Sectors, sectors': Sectors, blockno: int, bytes: seq<int>) {
    && sectors'.Keys == sectors.Keys && Shows(sectors', blockno, bytes)
    && forall k | k in sectors && !(SectorOf(blockno) <= k < SectorOf(blockno) + BSIZE / SECTOR) :: sectors'[k] == sectors[k]
  }

  /** One request, as the driver meant it: what the device moved. */
  ghost predicate Moved(data: Buffers, sectors: Sectors, data': Buffers, sectors': Sectors, b: int, blockno: int, write: bool) {
    b in data && if write then data' == data && Written(sectors, sectors', blockno, data[b])
                 else sectors' == sectors && b in data' && data' == data[b := data'[b]] && Shows(sectors, blockno, data'[b])
  }

  /** The block is where mkfs puts it: byte o of block n is byte 1024 * n + o of the disk, for blocks below 2^31. */
  lemma BlockPlace(sectors: Sectors, n: int, bytes: seq<int>, o: int)
    requires 0 <= n < 0x8000_0000 && Shows(sectors, n, bytes) && 0 <= o < 1024
    ensures var a := 1024 * n + o; a / 512 in sectors && |sectors[a / 512]| == 512 && |bytes| == 1024 && bytes[o] == sectors[a / 512][a % 512]
  {
    assert SectorOf(n) == 2 * n;
    assert (1024 * n + o) / 512 == 2 * n + o / 512 && (1024 * n + o) % 512 == o % 512;
  }

  /** Two blocks have a sector in common exactly when their numbers agree in the low 31 bits: the sector number has 32. */
  lemma SectorsApart(m: int, n: int)
    requires 0 <= m < U32 && 0 <= n < U32
    ensures (exists k :: InBlock(k, m) && InBlock(k, n)) <==> m % 0x8000_0000 == n % 0x8000_0000
  {
    LowBits(m);
    LowBits(n);
    if m % 0x8000_0000 == n % 0x8000_0000 { assert InBlock(SectorOf(m), m) && InBlock(SectorOf(m), n); }
  }

  /** Sector k is one of the block's. */
  predicate InBlock(k: int, blockno: int) { SectorOf(blockno) <= k < SectorOf(blockno) + BSIZE / SECTOR }

  lemma LowBits(n: int)
    requires 0 <= n < U32
    ensures SectorOf(n) == 2 * (n % 0x8000_0000)
  {
  }

  /** A block shows what was written to it, whatever is written to other blocks afterwards. */
  lemma StillShows(sectors: Sectors, sectors': Sectors, m: int, n: int, bytes: seq<int>, other: seq<int>)
    requires 0 <= m < U32 && 0 <= n < U32 && m % 0x8000_0000 != n % 0x8000_0000
    requires Shows(sectors, m, bytes) && Written(sectors, sectors', n, other)
    ensures Shows(sectors', m, bytes)
  {
    SectorsApart(m, n);
    hide SectorOf;
    forall k | SectorOf(m) <= k < SectorOf(m) + BSIZE / SECTOR ensures k in sectors' && sectors'[k] == sectors[k] { assert InBlock(k, m); }
  }

  /** It shows nothing else. */
  lemma ShowsOne(sectors: Sectors, n: int, x: seq<int>, y: seq<int>)
    requires Shows(sectors, n, x) && Shows(sectors, n, y)
    ensures x == y
  {
    hide SectorOf;
  }

  datatype Info = Info(b: int, status: int)

  /** Where a request is: in the avail ring, with the device, in the used ring, or seen by the interrupt handler. */
  datatype Stage = Published | Working | Done | Seen

  /** A request's three descriptors are its head, d1 and d2; b is its buffer. */
  datatype Chain = Chain(d1: int, d2: int, b: int, blockno: int, write: bool, stage: Stage)
  type Chains = map<int, Chain>

  /** A step of the device: take the next chain from the avail ring, or complete one that it has taken. */
  datatype DeviceStep = Take | Complete(h: int)

  // ---------------------------------------------------------------- rings

  /** The queue is in the ring, from position `count` on. */
  ghost predicate RingOk(ring: seq<int>, count: nat, queue: seq<int>) {
    |ring| == NUM && |queue| <= NUM && forall k | 0 <= k < |queue| :: ring[(count + k) % NUM] == queue[k]
  }

  /** Below the ring's size, two positions never meet. */
  lemma SlotsApart(count: nat, j: nat, k: nat)
    requires j < k < NUM
    ensures (count + j) % NUM != (count + k) % NUM
  {
  }

  lemma RingPush(ring: seq<int>, count: nat, queue: seq<int>, x: int)
    requires RingOk(ring, count, queue) && |queue| < NUM
    ensures RingOk(ring[(count + |queue|) % NUM := x], count, queue + [x])
  {
    var ring' := ring[(count + |queue|) % NUM := x];
    forall k | 0 <= k < |queue| ensures ring'[(count + k) % NUM] == queue[k] { SlotsApart(count, k, |queue|); }
  }

  lemma RingPop(ring: seq<int>, count: nat, queue: seq<int>)
    requires RingOk(ring, count, queue) && queue != []
    ensures ring[count % NUM] == queue[0] && RingOk(ring, count + 1, queue[1..])
  {
    assert ring[(count + 0) % NUM] == queue[0];
    forall k | 0 <= k < |queue[1..]| ensures ring[(count + 1 + k) % NUM] == queue[1..][k] {
      assert ring[(count + (k + 1)) % NUM] == queue[k + 1];
    }
  }

  /** A 16-bit index selects the same slot as the count it wraps, since NUM divides 2^16. */
  lemma WrappedSlot(count: nat)
    ensures count % U16 % NUM == count % NUM
  {
  }

  lemma WrappedNext(count: nat)
    ensures (count % U16 + 1) % U16 == (count + 1) % U16
  {
  }

  lemma WrappedDiffer(count: nat, n: nat)
    requires n < U16
    ensures (count + n) % U16 == count % U16 <==> n == 0
  {
  }

  /** A ring with its two 16-bit indices: where its reader and its writer are. */
  ghost predicate RingState(ring: seq<int>, count: nat, queue: seq<int>, reader: int, writer: int) {
    RingOk(ring, count, queue) && reader == count % U16 && writer == (count + |queue|) % U16
  }

  /** The indices are equal only when the queue is empty; otherwise the reader's slot holds its front. */
  lemma ReadRing(ring: seq<int>, count: nat, queue: seq<int>, reader: int, writer: int)
    requires RingState(ring, count, queue, reader, writer)
    ensures |ring| == NUM && 0 <= reader && (reader == writer <==> queue == [])
    ensures queue != [] ==> ring[reader % NUM] == queue[0] && RingState(ring, count + 1, queue[1..], (reader + 1) % U16, writer)
  {
    WrappedDiffer(count, |queue|);
    if queue != [] {
      RingPop(ring, count, queue);
      WrappedSlot(count);
      WrappedNext(count);
    }
  }

  lemma WriteRing(ring: seq<int>, count: nat, queue: seq<int>, reader: int, writer: int, x: int)
    requires RingState(ring, count, queue, reader, writer) && |queue| < NUM
    ensures |ring| == NUM && 0 <= writer
    ensures RingState(ring[writer % NUM := x], count, queue + [x], reader, (writer + 1) % U16)
  {
    RingPush(ring, count, queue, x);
    WrappedSlot(count + |queue|);
    WrappedNext(count + |queue|);
  }

  // ---------------------------------------------------------------- descriptors

  ghost predicate Index(i: int) { 0 <= i < NUM }

  ghost predicate InChain(chains: Chains, h: int, i: int) {
    h in chains && (i == h || i == chains[h].d1 || i == chains[h].d2)
  }

  /** Free descriptors and the chains' descriptors partition all descriptors (but those held for a moment). */
  ghost predicate PartitionOk(free: seq<bool>, owner: seq<int>, chains: Chains) {
    && |free| == NUM && |owner| == NUM
    && (forall i | Index(i) :: free[i] <==> owner[i] == FREE)
    && (forall h | h in chains :: Index(h) && Index(chains[h].d1) && Index(chains[h].d2)
                                  && h != chains[h].d1 && h != chains[h].d2 && chains[h].d1 != chains[h].d2)
    && (forall h, i | Index(i) && InChain(chains, h, i) :: owner[i] == h)
    && (forall i | 0 <= i < NUM :: OwnerOk(owner, chains, i))
  }

  /** A descriptor that is neither free nor held is in the chain that owns it. */
  ghost predicate OwnerOk(owner: seq<int>, chains: Chains, i: int) {
    0 <= i < |owner| && (owner[i] == FREE || owner[i] == HELD || InChain(chains, owner[i], i))
  }

  /** Each chain's descriptors are linked from its head, and say what the request is. */
  ghost predicate LinksOk(desc: seq<Desc>, chains: Chains) {
    && |desc| == NUM
    && forall h | h in chains && Index(h) && Index(chains[h].d1) && Index(chains[h].d2) ::
         var c := chains[h];
         desc[h] == HeadDesc(h, c.d1) && desc[c.d1] == DataDesc(c.b, c.write, c.d2) && desc[c.d2] == StatusDesc(h)
  }

  function HeadDesc(h: int, d1: int): Desc { Desc(Header(h), REQSIZE, true, false, d1) }

  /** The device reads the data to write the disk, and writes it to read the disk. */
  function DataDesc(b: int, write: bool, d2: int): Desc { Desc(Data(b), BSIZE, true, !write, d2) }

  function StatusDesc(h: int): Desc { Desc(Status(h), 1, false, true, 0) }

  function ReqOf(blockno: int, write: bool): Req { Req(if write then 1 else 0, 0, SectorOf(blockno)) }

  /** The request headers say what the requests are; their buffers and blocks exist. */
  ghost predicate RequestsOk(ops: seq<Req>, data: Buffers, sectors: Sectors, chains: Chains) {
    && |ops| == NUM
    && forall h | h in chains && Index(h) ::
         ops[h] == ReqOf(chains[h].blockno, chains[h].write) && There(data, sectors, chains[h].b, chains[h].blockno)
  }

  /** Requests record their buffers, whose disk flags are set until the interrupt handler has seen them. */
  ghost predicate InfoOk(info: seq<Info>, busy: map<int, bool>, chains: Chains) {
    && |info| == NUM
    && (forall h | h in chains && Index(h) ::
          info[h].b == chains[h].b != NOBUF && chains[h].b in busy && (busy[chains[h].b] <==> chains[h].stage != Seen)
          && (chains[h].stage == Done ==> info[h].status == 0))
    && (forall h, h' | h in chains && h' in chains && chains[h].b == chains[h'].b :: h == h')
  }

  /** The queue lists exactly the chains at one stage, each once. */
  ghost predicate QueueOk(queue: seq<int>, chains: Chains, stage: Stage) {
    && (forall j, k | 0 <= j < k < |queue| :: queue[j] != queue[k])
    && (forall k | 0 <= k < |queue| :: queue[k] in chains && chains[queue[k]].stage == stage)
    && (forall h | h in chains && chains[h].stage == stage :: h in queue)
  }

  lemma QueueHead(queue: seq<int>, chains: Chains, stage: Stage)
    requires QueueOk(queue, chains, stage)
    ensures queue != [] ==> chains != map[]
  {
    if queue != [] { assert queue[0] in chains; }
  }

  /** The device works on exactly the chains at that stage. */
  ghost predicate WorkingOk(working: set<int>, chains: Chains) {
    forall h :: h in working <==> h in chains && chains[h].stage == Working
  }

  lemma WorkingMoves(working: set<int>, chains: Chains, h: int, c: Chain)
    requires WorkingOk(working, chains)
    ensures c.stage == Working ==> WorkingOk(working + {h}, chains[h := c])
    ensures c.stage != Working ==> WorkingOk(working - {h}, chains[h := c])
    ensures h !in chains || chains[h].stage != Working ==> working - {h} == working
  {
  }

  /** Distinct heads below NUM: a queue with room for one more. */
  lemma {:induction false} QueueFits(queue: seq<int>, h: int)
    requires Index(h) && h !in queue && (forall k | 0 <= k < |queue| :: Index(queue[k]))
    requires forall j, k | 0 <= j < k < |queue| :: queue[j] != queue[k]
    ensures |queue| < NUM
  {
    hide Range;
    Elements(queue, |queue|);
    var s := set k | 0 <= k < |queue| :: queue[k];
    SubsetSize(s + {h}, Range(0, NUM));
  }

  lemma {:induction false} Elements(queue: seq<int>, n: nat)
    requires n <= |queue| && forall j, k | 0 <= j < k < |queue| :: queue[j] != queue[k]
    ensures |set k | 0 <= k < n :: queue[k]| == n
  {
    if n > 0 {
      Elements(queue, n - 1);
      assert (set k | 0 <= k < n :: queue[k]) == (set k | 0 <= k < n - 1 :: queue[k]) + {queue[n - 1]};
    }
  }

  /** At most two requests are in flight. */
  lemma AtMostTwo(free: seq<bool>, owner: seq<int>, chains: Chains, h: int, h': int, h'': int)
    requires PartitionOk(free, owner, chains) && h in chains && h' in chains && h'' in chains
    ensures h == h' || h == h'' || h' == h''
  {
    var a := Triple(free, owner, chains, h);
    var b := Triple(free, owner, chains, h');
    var c := Triple(free, owner, chains, h'');
    hide PartitionOk, Range;
    assert h != h' ==> a * b == {};
    assert h != h'' && h' != h'' ==> (a + b) * c == {};
    SubsetSize(a + b + c, Range(0, NUM));
  }

  lemma Triple(free: seq<bool>, owner: seq<int>, chains: Chains, h: int) returns (s: set<int>)
    requires PartitionOk(free, owner, chains) && h in chains
    ensures |s| == 3 && s <= Range(0, NUM) && forall i | i in s :: 0 <= i < |owner| && owner[i] == h
  {
    hide Range;
    assert InChain(chains, h, h) && InChain(chains, h, chains[h].d1) && InChain(chains, h, chains[h].d2);
    s := {h, chains[h].d1, chains[h].d2};
  }

  lemma AtMostTwoIn(s: set<int>)
    requires forall a, b, c | a in s && b in s && c in s :: a == b || a == c || b == c
    ensures |s| <= 2
  {
    if |s| > 2 {
      var a := Member(s);
      var b := Member(s - {a});
      var c := Member(s - {a} - {b});
    }
  }

  lemma NoMember(s: set<int>)
    ensures (forall x :: x !in s) ==> |s| == 0
  {
    if forall x :: x !in s { assert s == {}; }
  }

  ghost function Member(s: set<int>): (x: int)
    requires |s| > 0
    ensures x in s
  {
    NoMember(s);
    var x :| x in s;
    x
  }

  lemma OnlyChain(chains: Chains, h: int)
    requires |chains| < 2 && h in chains
    ensures forall g | g in chains :: g == h
  {
    assert |chains.Keys| == |chains|;
    forall g | g in chains ensures g == h {
      if g != h {
        assert {g, h} <= chains.Keys;
        SubsetSize({g, h}, chains.Keys);
      }
    }
  }

  // ---------------------------------------------------------------- changes

  lemma HoldOk(free: seq<bool>, owner: seq<int>, chains: Chains, i: int)
    requires PartitionOk(free, owner, chains) && Index(i) && free[i]
    ensures PartitionOk(free[i := false], owner[i := HELD], chains)
  {
    var owner' := owner[i := HELD];
    forall j | 0 <= j < NUM ensures OwnerOk(owner', chains, j) { assert OwnerOk(owner, chains, j); }
  }

  lemma ReleaseOk(free: seq<bool>, owner: seq<int>, chains: Chains, i: int)
    requires PartitionOk(free, owner, chains) && Index(i) && owner[i] == HELD
    ensures PartitionOk(free[i := true], owner[i := FREE], chains)
  {
    var owner' := owner[i := FREE];
    forall j | 0 <= j < NUM ensures OwnerOk(owner', chains, j) { assert OwnerOk(owner, chains, j); }
  }

  lemma AddChainOk(free: seq<bool>, owner: seq<int>, chains: Chains, h: int, c: Chain)
    requires PartitionOk(free, owner, chains) && Index(h) && Index(c.d1) && Index(c.d2) && h != c.d1 && h != c.d2 && c.d1 != c.d2
    requires owner[h] == HELD && owner[c.d1] == HELD && owner[c.d2] == HELD
    ensures h !in chains && PartitionOk(free, owner[h := h][c.d1 := h][c.d2 := h], chains[h := c])
  {
    var owner', chains' := owner[h := h][c.d1 := h][c.d2 := h], chains[h := c];
    assert h !in chains by { assert h in chains ==> InChain(chains, h, h); }
    forall g, i | Index(i) && InChain(chains', g, i) ensures owner'[i] == g {
      assert g != h ==> InChain(chains, g, i);
    }
    forall j | 0 <= j < NUM ensures OwnerOk(owner', chains', j) { assert OwnerOk(owner, chains, j); }
  }

  lemma DropChainOk(free: seq<bool>, owner: seq<int>, chains: Chains, h: int)
    requires PartitionOk(free, owner, chains) && h in chains
    ensures var c := chains[h];
            Index(h) && Index(c.d1) && Index(c.d2) && PartitionOk(free, owner[h := HELD][c.d1 := HELD][c.d2 := HELD], chains - {h})
    ensures owner[h] == owner[chains[h].d1] == owner[chains[h].d2] == h
  {
    var c := chains[h];
    assert InChain(chains, h, h) && InChain(chains, h, c.d1) && InChain(chains, h, c.d2);
    var owner', chains' := owner[h := HELD][c.d1 := HELD][c.d2 := HELD], chains - {h};
    forall g, i | Index(i) && InChain(chains', g, i) ensures owner'[i] == g {
      assert InChain(chains, g, i);
    }
    forall j | 0 <= j < NUM ensures OwnerOk(owner', chains', j) { assert OwnerOk(owner, chains, j); }
  }

  lemma StageOk(free: seq<bool>, owner: seq<int>, chains: Chains, h: int, stage: Stage)
    requires PartitionOk(free, owner, chains) && h in chains
    ensures PartitionOk(free, owner, chains[h := chains[h].(stage := stage)])
  {
    var chains' := chains[h := chains[h].(stage := stage)];
    forall g, i | Index(i) && InChain(chains', g, i) ensures owner[i] == g { assert InChain(chains, g, i); }
    forall j | 0 <= j < NUM ensures OwnerOk(owner, chains', j) { assert OwnerOk(owner, chains, j); }
  }

  /** Descriptors outside all chains may change. */
  lemma LinksKept(desc: seq<Desc>, desc': seq<Desc>, free: seq<bool>, owner: seq<int>, chains: Chains)
    requires LinksOk(desc, chains) && PartitionOk(free, owner, chains) && |desc'| == NUM
    requires forall i | Index(i) && owner[i] != FREE && owner[i] != HELD :: desc'[i] == desc[i]
    ensures LinksOk(desc', chains)
  {
    forall h | h in chains && Index(h) && Index(chains[h].d1) && Index(chains[h].d2)
      ensures desc'[h] == desc[h] && desc'[chains[h].d1] == desc[chains[h].d1] && desc'[chains[h].d2] == desc[chains[h].d2]
    {
      Members(free, owner, chains, h);
    }
  }

  lemma Members(free: seq<bool>, owner: seq<int>, chains: Chains, h: int)
    requires PartitionOk(free, owner, chains) && h in chains
    ensures Index(h) && Index(chains[h].d1) && Index(chains[h].d2)
    ensures owner[h] == h && owner[chains[h].d1] == h && owner[chains[h].d2] == h
  {
    assert InChain(chains, h, h) && InChain(chains, h, chains[h].d1) && InChain(chains, h, chains[h].d2);
  }

  lemma AddLinks(desc: seq<Desc>, chains: Chains, free: seq<bool>, owner: seq<int>, h: int, c: Chain)
    requires LinksOk(desc, chains) && PartitionOk(free, owner, chains) && Index(h) && Index(c.d1) && Index(c.d2)
    requires h != c.d1 && h != c.d2 && c.d1 != c.d2 && owner[h] == HELD && owner[c.d1] == HELD && owner[c.d2] == HELD
    ensures LinksOk(Formatted(desc, h, c.d1, c.d2, c.b, c.write), chains[h := c])
  {
    var desc' := Formatted(desc, h, c.d1, c.d2, c.b, c.write);
    LinksKept(desc, desc', free, owner, chains);
    assert h !in chains by { assert h in chains ==> InChain(chains, h, h); }
  }

  /** The three descriptors of a request, as virtio_disk_rw() fills them in. */
  function Formatted(desc: seq<Desc>, h: int, d1: int, d2: int, b: int, write: bool): seq<Desc>
    requires |desc| == NUM && 0 <= h < NUM && 0 <= d1 < NUM && 0 <= d2 < NUM
  {
    desc[h := HeadDesc(h, d1)][d1 := DataDesc(b, write, d2)][d2 := StatusDesc(h)]
  }

  /** A new request at the end of the avail ring. */
  lemma AddInfo(info: seq<Info>, busy: map<int, bool>, chains: Chains, h: int, c: Chain)
    requires InfoOk(info, busy, chains) && Index(h) && h !in chains && c.stage == Published && c.b != NOBUF
    requires forall g | g in chains :: chains[g].b != c.b
    ensures InfoOk(info[h := Info(c.b, 0xff)], busy[c.b := true], chains[h := c])
  {
  }

  lemma AddQueues(pending: seq<int>, completed: seq<int>, chains: Chains, h: int, c: Chain)
    requires QueueOk(pending, chains, Published) && QueueOk(completed, chains, Done) && h !in chains && c.stage == Published
    ensures QueueOk(pending + [h], chains[h := c], Published) && QueueOk(completed, chains[h := c], Done)
  {
    var pending' := pending + [h];
    forall g | g in chains[h := c] && chains[h := c][g].stage == Published ensures g in pending' {
      if g == h { assert pending'[|pending|] == h; } else {
        var k :| 0 <= k < |pending| && pending[k] == g;
        assert pending'[k] == g;
      }
    }
  }

  /** A chain leaves the front of one queue. */
  lemma PopQueue(queue: seq<int>, chains: Chains, stage: Stage, next: Stage)
    requires QueueOk(queue, chains, stage) && queue != [] && next != stage
    ensures queue[0] in chains && chains[queue[0]].stage == stage
    ensures QueueOk(queue[1..], chains[queue[0] := chains[queue[0]].(stage := next)], stage)
  {
    var h := queue[0];
    var chains' := chains[h := chains[h].(stage := next)];
    forall g | g in chains' && chains'[g].stage == stage ensures g in queue[1..] {
      var k :| 0 <= k < |queue| && queue[k] == g;
      assert queue[1..][k - 1] == g;
    }
  }

  /** ... or joins the end of one. */
  lemma PushQueue(queue: seq<int>, chains: Chains, stage: Stage, h: int)
    requires QueueOk(queue, chains, stage) && h in chains && chains[h].stage != stage
    ensures h !in queue && QueueOk(queue + [h], chains[h := chains[h].(stage := stage)], stage)
  {
    var queue', chains' := queue + [h], chains[h := chains[h].(stage := stage)];
    forall g | g in chains' && chains'[g].stage == stage ensures g in queue' {
      if g == h { assert queue'[|queue|] == h; } else {
        var k :| 0 <= k < |queue| && queue[k] == g;
        assert queue'[k] == g;
      }
    }
  }

  lemma OtherQueue(queue: seq<int>, chains: Chains, stage: Stage, h: int, next: Stage)
    requires QueueOk(queue, chains, stage) && h in chains && chains[h].stage != stage && next != stage
    ensures QueueOk(queue, chains[h := chains[h].(stage := next)], stage)
  {
  }

  // ---------------------------------------------------------------- driver and device

  class Disk {
    var desc: seq<Desc>
    var free: seq<bool>
    var avail: seq<int>
    var availIdx: int             // avail->idx, 16 bits
    var used: seq<int>
    var usedIdx: int              // used->idx, 16 bits
    var seenIdx: int              // used_idx, 16 bits
    var ops: seq<Req>
    var info: seq<Info>
    var busy: map<int, bool>      // b->disk, by buffer
    var data: Buffers
    var sectors: Sectors          // the device's store
    var devIdx: int               // how far the device has read the avail ring, 16 bits
    var working: set<int>         // the heads of the chains that the device has taken and not completed

    ghost var owner: seq<int>
    ghost var chains: Chains
    ghost var pending: seq<int>   // chains in the avail ring, in order
    ghost var completed: seq<int> // chains in the used ring, in order
    ghost var taken: nat          // how many chains the device has taken
    ghost var counted: nat        // how many completions the interrupt handler has seen

    ghost predicate RingsOk()
      reads this`avail, this`taken, this`pending, this`used, this`counted, this`completed
      reads this`devIdx, this`availIdx, this`seenIdx, this`usedIdx
    {
      && RingState(avail, taken, pending, devIdx, availIdx)
      && RingState(used, counted, completed, seenIdx, usedIdx)
    }

    ghost predicate Valid()
      reads this
    {
      && PartitionOk(free, owner, chains) && (forall i | 0 <= i < NUM :: owner[i] != HELD)
      && LinksOk(desc, chains) && RequestsOk(ops, data, sectors, chains) && InfoOk(info, busy, chains)
      && QueueOk(pending, chains, Published) && QueueOk(completed, chains, Done) && RingsOk() && WorkingOk(working, chains)
    }

    /** virtio_disk_init(): all descriptors are free, both rings are empty. */
    constructor (data: Buffers, sectors: Sectors)
      ensures Valid() && chains == map[] && this.data == data && this.sectors == sectors
    {
      this.data, this.sectors, ops := data, sectors, seq(NUM, i => Req(0, 0, 0));
      desc, free := seq(NUM, i => NODESC), seq(NUM, i => true);
      avail, used, info := seq(NUM, i => 0), seq(NUM, i => 0), seq(NUM, i => Info(NOBUF, 0));
      availIdx, usedIdx, seenIdx, devIdx := 0, 0, 0, 0;
      busy, working := map[], {};
      owner, chains, pending, completed, taken, counted := seq(NUM, i => FREE), map[], [], [], 0, 0;
    }

    /** alloc_desc(): the first free descriptor, or -1. */
    method AllocDesc() returns (r: int)
      requires PartitionOk(free, owner, chains)
      modifies this`free, this`owner
      ensures PartitionOk(free, owner, chains)
      ensures r == -1 ==> free == old(free) && owner == old(owner) && forall i | 0 <= i < NUM :: !free[i]
      ensures r != -1 ==> Index(r) && old(free)[r] && (forall i | 0 <= i < r :: !free[i])
                          && free == old(free)[r := false] && owner == old(owner)[r := HELD]
    {
      var i := 0;
      while i < NUM
        invariant 0 <= i <= NUM && free == old(free) && owner == old(owner) && forall j | 0 <= j < i :: !free[j]
      {
        if free[i] {
          HoldOk(free, owner, chains, i);
          free := free[i := false];
          owner := owner[i := HELD];
          return i;
        }
        i := i + 1;
      }
      return -1;
    }

    /** free_desc(): 1 and 2 stand for its two panics. */
    method FreeDesc(i: int) returns (panic: int)
      requires PartitionOk(free, owner, chains) && |desc| == NUM && 0 <= i && (i < NUM && !free[i] ==> owner[i] == HELD)
      modifies this`free, this`owner, this`desc
      ensures PartitionOk(free, owner, chains)
      ensures 0 <= panic <= 2 && (panic == 1 <==> i >= NUM) && (panic == 2 <==> i < NUM && old(free)[i])
      ensures panic != 0 ==> free == old(free) && owner == old(owner) && desc == old(desc)
      ensures panic == 0 ==> free == old(free)[i := true] && owner == old(owner)[i := FREE] && desc == old(desc)[i := NODESC]
    {
      if i >= NUM { return 1; }
      if free[i] { return 2; }
      ReleaseOk(free, owner, chains, i);
      desc := desc[i := NODESC];
      free := free[i := true];
      owner := owner[i := FREE];
      return 0;
    }

    /** The descriptors idx[lo..] are held now, and were free at owner0; all others are as they were then. */
    ghost predicate Holding(owner0: seq<int>, idx: seq<int>, lo: int)
      reads this
    {
      && |owner0| == NUM && |owner| == NUM && |free| == NUM && |desc| == NUM
      && (forall j | 0 <= j < |idx| :: Index(idx[j]) && owner0[idx[j]] == FREE && owner[idx[j]] == if j < lo then FREE else HELD)
      && (forall j, k | 0 <= j < k < |idx| :: idx[j] != idx[k])
      && (forall i | 0 <= i < NUM && i !in idx :: owner[i] == owner0[i])
    }

    /** alloc3_desc(): three descriptors, or none; the panics of free_desc() are unreachable. */
    method Alloc3() returns (ok: bool, idx: seq<int>)
      requires PartitionOk(free, owner, chains) && |desc| == NUM
      modifies this`free, this`owner, this`desc
      ensures PartitionOk(free, owner, chains) && |desc| == NUM
      ensures forall i | 0 <= i < NUM && old(owner)[i] != FREE :: desc[i] == old(desc)[i]
      ensures ok ==> |idx| == 3 && Holding(old(owner), idx, 0)
      ensures !ok ==> owner == old(owner)
      ensures !ok ==> forall i, j, k | Index(i) && Index(j) && Index(k) && free[i] && free[j] && free[k] :: i == j || i == k || j == k
    {
      hide PartitionOk;
      Lengths();
      ghost var desc0, owner0 := desc, owner;
      idx := [];
      while |idx| < 3
        invariant |idx| <= 3 && PartitionOk(free, owner, chains) && desc == desc0 && Holding(owner0, idx, 0)
        decreases 3 - |idx|
      {
        Lengths();
        var d;
        d := AllocDesc();
        if d < 0 {
          Lengths();
          FewFree(owner0, idx);
          FreeAll(idx, owner0);
          Lengths();
          return false, [];
        }
        idx := idx + [d];
      }
      ok := true;
    }

    /** The way out of alloc3_desc(): give back what it has. */
    method FreeAll(idx: seq<int>, ghost owner0: seq<int>)
      requires PartitionOk(free, owner, chains) && Holding(owner0, idx, 0)
      modifies this`free, this`owner, this`desc
      ensures PartitionOk(free, owner, chains) && |desc| == NUM && owner == owner0
      ensures forall i | 0 <= i < NUM && owner0[i] != FREE :: desc[i] == old(desc)[i]
    {
      hide PartitionOk;
      ghost var desc0 := desc;
      var j := 0;
      while j < |idx|
        invariant 0 <= j <= |idx| && PartitionOk(free, owner, chains) && Holding(owner0, idx, j)
        invariant forall i | 0 <= i < NUM && owner0[i] != FREE :: desc[i] == desc0[i]
      {
        Lengths();
        var panic;
        panic := FreeDesc(idx[j]);
        assert panic == 0;
        j := j + 1;
      }
    }

    /** Out of descriptors with fewer than three held: fewer than three were free. */
    lemma FewFree(owner0: seq<int>, idx: seq<int>)
      requires Holding(owner0, idx, 0) && |idx| < 3 && forall i | 0 <= i < NUM :: owner[i] != FREE
      ensures forall i, j, k | Index(i) && Index(j) && Index(k) && owner0[i] == FREE && owner0[j] == FREE && owner0[k] == FREE ::
                i == j || i == k || j == k
    {
      assert forall i | 0 <= i < NUM && owner0[i] == FREE :: i in idx;
    }

    lemma Lengths()
      requires PartitionOk(free, owner, chains)
      ensures |free| == NUM && |owner| == NUM && forall i | 0 <= i < NUM :: free[i] <==> owner[i] == FREE
    {
      assert forall i | 0 <= i < NUM :: Index(i);
    }

    /**
     * virtio_disk_rw() up to its wait: publish a request for buffer b, which the caller has locked.
     * Not ok: fewer than three descriptors are free, and the caller sleeps and tries again.
     */
    method Start(b: int, blockno: int, write: bool) returns (ok: bool, h: int)
      requires Valid() && b != NOBUF && There(data, sectors, b, blockno) && forall g | g in chains :: chains[g].b != b
      modifies this
      ensures Valid() && data == old(data) && sectors == old(sectors)
      ensures !ok ==> chains == old(chains) && pending == old(pending) && completed == old(completed) && busy == old(busy)
      ensures ok <==> |old(chains)| < 2
      ensures ok ==> h !in old(chains) && busy == old(busy)[b := true] && completed == old(completed) && pending == old(pending) + [h]
      ensures ok ==> h in chains && chains == old(chains)[h := chains[h]] && chains[h] == Chain(chains[h].d1, chains[h].d2, b, blockno, write, Published)
    {
      hide PartitionOk, LinksOk, RequestsOk, InfoOk, QueueOk, RingsOk, Formatted, Holding, WorkingOk;
      Lengths();
      LinksLength();
      ghost var desc0, owner0 := desc, owner;
      var idx;
      ok, idx := Alloc3();
      Lengths();
      if ok { Held(owner0, idx); }
      KeepLinks(desc0, owner0);
      if !ok {
        TwoInFlight();
        h := -1;
        return;
      }
      ghost var before := chains;
      h := idx[0];
      WorkingMoves(working, chains, h, Chain(idx[1], idx[2], b, blockno, write, Published));
      Issue(idx[0], idx[1], idx[2], b, blockno, write);
      NoneHeld(owner0, idx);
      FewInFlight(before, h);
    }

    /** Fewer than three descriptors are free only when two requests are in flight. */
    lemma TwoInFlight()
      requires PartitionOk(free, owner, chains) && forall i | 0 <= i < NUM :: owner[i] != HELD
      requires forall i, j, k | Index(i) && Index(j) && Index(k) && free[i] && free[j] && free[k] :: i == j || i == k || j == k
      ensures |chains| >= 2
    {
      if |chains| < 2 {
        var h := if 0 < |chains| then Member(chains.Keys) else FREE;
        if h in chains { OnlyChain(chains, h); }
        var owned := if h in chains then {h, chains[h].d1, chains[h].d2} else {};
        forall i | 0 <= i < NUM ensures free[i] || i in owned { OwnedBy(i, h); }
        hide PartitionOk;
        TooFewOwned(owned);
      }
    }

    lemma OwnedBy(i: int, h: int)
      requires PartitionOk(free, owner, chains) && (forall j | 0 <= j < NUM :: owner[j] != HELD) && (forall g | g in chains :: g == h) && 0 <= i < NUM
      ensures free[i] || (h in chains && (i == h || i == chains[h].d1 || i == chains[h].d2))
    {
      assert OwnerOk(owner, chains, i) && Index(i);
    }

    lemma TooFewOwned(owned: set<int>)
      requires |free| == NUM && |owned| <= 3 && forall i | 0 <= i < NUM :: free[i] || i in owned
      ensures exists i, j, k :: Index(i) && Index(j) && Index(k) && free[i] && free[j] && free[k] && i != j && i != k && j != k
    {
      var unused := set i | 0 <= i < NUM && free[i];
      assert Range(0, NUM) <= unused + owned;
      SubsetSize(Range(0, NUM), unused + owned);
      if forall i, j, k | i in unused && j in unused && k in unused :: i == j || i == k || j == k {
        AtMostTwoIn(unused);
        assert false;
      }
      var i, j, k :| i in unused && j in unused && k in unused && i != j && i != k && j != k;
      assert Index(i) && Index(j) && Index(k);
    }

    /** A new request makes two at most. */
    lemma FewInFlight(before: Chains, h: int)
      requires PartitionOk(free, owner, chains) && h !in before && h in chains && chains == before[h := chains[h]]
      ensures |before| < 2
    {
      forall a, b, c | a in chains.Keys && b in chains.Keys && c in chains.Keys ensures a == b || a == c || b == c {
        AtMostTwo(free, owner, chains, a, b, c);
      }
      AtMostTwoIn(chains.Keys);
      assert chains.Keys == before.Keys + {h};
      assert |before.Keys| == |before|;
    }

    /** With three descriptors in hand: format them, record the buffer and tell the device. */
    method Issue(h: int, d1: int, d2: int, b: int, blockno: int, write: bool)
      requires PartitionOk(free, owner, chains) && LinksOk(desc, chains) && RequestsOk(ops, data, sectors, chains) && InfoOk(info, busy, chains)
      requires QueueOk(pending, chains, Published) && QueueOk(completed, chains, Done) && RingsOk()
      requires |owner| == NUM && Index(h) && Index(d1) && Index(d2) && h != d1 && h != d2 && d1 != d2
      requires owner[h] == owner[d1] == owner[d2] == HELD && b != NOBUF && forall g | g in chains :: chains[g].b != b
      requires There(data, sectors, b, blockno)
      modifies this
      ensures PartitionOk(free, owner, chains) && LinksOk(desc, chains) && RequestsOk(ops, data, sectors, chains) && InfoOk(info, busy, chains)
      ensures QueueOk(pending, chains, Published) && QueueOk(completed, chains, Done) && RingsOk() && data == old(data) && sectors == old(sectors)
      ensures working == old(working)
      ensures h !in old(chains) && chains == old(chains)[h := Chain(d1, d2, b, blockno, write, Published)] && busy == old(busy)[b := true]
      ensures pending == old(pending) + [h] && completed == old(completed) && owner == old(owner)[h := h][d1 := h][d2 := h]
    {
      hide PartitionOk, LinksOk, RequestsOk, InfoOk, QueueOk, RingsOk, Formatted, There, SectorOf;
      ghost var c := Chain(d1, d2, b, blockno, write, Published);
      IssueOk(h, c);
      Format(h, d1, d2, b, blockno, write);
      Enqueue(h);
      owner := owner[h := h][d1 := h][d2 := h];
      chains := chains[h := c];
    }

    /** A new request keeps all that holds of descriptors, headers, buffers and queues. */
    lemma IssueOk(h: int, c: Chain)
      requires PartitionOk(free, owner, chains) && LinksOk(desc, chains) && RequestsOk(ops, data, sectors, chains) && InfoOk(info, busy, chains)
      requires QueueOk(pending, chains, Published) && QueueOk(completed, chains, Done)
      requires |owner| == NUM && Index(h) && Index(c.d1) && Index(c.d2) && h != c.d1 && h != c.d2 && c.d1 != c.d2
      requires owner[h] == owner[c.d1] == owner[c.d2] == HELD && c.b != NOBUF && c.stage == Published && forall g | g in chains :: chains[g].b != c.b
      requires There(data, sectors, c.b, c.blockno)
      ensures |desc| == NUM && |info| == NUM && |ops| == NUM && |pending| < NUM && h !in chains
      ensures PartitionOk(free, owner[h := h][c.d1 := h][c.d2 := h], chains[h := c])
      ensures LinksOk(Formatted(desc, h, c.d1, c.d2, c.b, c.write), chains[h := c])
      ensures RequestsOk(ops[h := ReqOf(c.blockno, c.write)], data, sectors, chains[h := c])
      ensures InfoOk(info[h := Info(c.b, 0xff)], busy[c.b := true], chains[h := c])
      ensures QueueOk(pending + [h], chains[h := c], Published) && QueueOk(completed, chains[h := c], Done)
    {
      hide PartitionOk, LinksOk, RequestsOk, InfoOk, QueueOk, Formatted;
      LinksLength();
      AddChainOk(free, owner, chains, h, c);
      AddLinks(desc, chains, free, owner, h, c);
      AddRequest(h, c);
      AddInfo(info, busy, chains, h, c);
      AddQueues(pending, completed, chains, h, c);
      HeadFits(h);
    }

    lemma AddRequest(h: int, c: Chain)
      requires RequestsOk(ops, data, sectors, chains) && Index(h) && There(data, sectors, c.b, c.blockno)
      ensures RequestsOk(ops[h := ReqOf(c.blockno, c.write)], data, sectors, chains[h := c])
    {
    }

    /** Fill in the request header and the three descriptors, and record the buffer. */
    method Format(h: int, d1: int, d2: int, b: int, blockno: int, write: bool)
      requires |desc| == NUM && |info| == NUM && |ops| == NUM && 0 <= h < NUM && 0 <= d1 < NUM && 0 <= d2 < NUM
      modifies this`desc, this`info, this`busy, this`ops
      ensures desc == Formatted(old(desc), h, d1, d2, b, write) && info == old(info)[h := Info(b, 0xff)] && busy == old(busy)[b := true]
      ensures ops == old(ops)[h := ReqOf(blockno, write)]
    {
      var sector := blockno * (BSIZE / 512) % U32;
      ops := ops[h := Req(if write then 1 else 0, 0, sector)];
      desc := desc[h := Desc(Header(h), REQSIZE, true, false, d1)];
      desc := desc[d1 := Desc(Data(b), BSIZE, true, !write, d2)];
      info := info[h := Info(info[h].b, 0xff)];
      desc := desc[d2 := Desc(Status(h), 1, false, true, 0)];
      busy := busy[b := true];
      info := info[h := Info(b, info[h].status)];
    }

    /** Tell the device about chain h: its place in the ring, then the index. */
    method Enqueue(h: int)
      requires RingsOk() && |pending| < NUM
      modifies this`avail, this`availIdx, this`pending
      ensures RingsOk() && pending == old(pending) + [h]
    {
      WriteRing(avail, taken, pending, devIdx, availIdx, h);
      hide RingState;
      avail := avail[availIdx % NUM := h];
      availIdx := (availIdx + 1) % U16;
      pending := pending + [h];
    }

    lemma Held(owner0: seq<int>, idx: seq<int>)
      requires Holding(owner0, idx, 0) && |idx| == 3 && |owner| == NUM
      ensures Index(idx[0]) && Index(idx[1]) && Index(idx[2]) && idx[0] != idx[1] && idx[0] != idx[2] && idx[1] != idx[2]
      ensures owner[idx[0]] == owner[idx[1]] == owner[idx[2]] == HELD
      ensures forall i | 0 <= i < NUM :: owner[i] == owner0[i] || (owner0[i] == FREE && owner[i] == HELD)
      ensures forall i | 0 <= i < NUM && i !in idx :: owner[i] == owner0[i]
    {
    }

    lemma LinksLength()
      requires LinksOk(desc, chains) && RequestsOk(ops, data, sectors, chains) && InfoOk(info, busy, chains)
      ensures |desc| == NUM && |info| == NUM && |ops| == NUM
    {
    }

    lemma KeepLinks(desc0: seq<Desc>, owner0: seq<int>)
      requires LinksOk(desc0, chains) && |desc| == NUM && PartitionOk(free, owner, chains) && |owner0| == NUM
      requires forall i | 0 <= i < NUM && owner0[i] != FREE :: desc[i] == desc0[i]
      requires forall i | 0 <= i < NUM :: owner[i] == owner0[i] || (owner0[i] == FREE && owner[i] == HELD)
      ensures LinksOk(desc, chains)
    {
      LinksKept(desc0, desc, free, owner, chains);
    }

    lemma HeadFits(h: int)
      requires PartitionOk(free, owner, chains) && QueueOk(pending, chains, Published) && Index(h) && h !in chains
      ensures |pending| < NUM
    {
      QueueFits(pending, h);
    }

    lemma NoneHeld(owner0: seq<int>, idx: seq<int>)
      requires |owner0| == NUM && |owner| == NUM && |idx| == 3
      requires forall i | 0 <= i < NUM :: owner0[i] != HELD
      requires forall i | 0 <= i < NUM && i !in idx :: owner[i] == owner0[i]
      requires forall j | 0 <= j < 3 :: 0 <= idx[j] < NUM && owner[idx[j]] != HELD
      ensures forall i | 0 <= i < NUM :: owner[i] != HELD
    {
      forall i | 0 <= i < NUM ensures owner[i] != HELD {
        if i in idx { assert i == idx[0] || i == idx[1] || i == idx[2]; }
      }
    }

    /** The device takes the next chain from the avail ring, or -1 if it has taken all. */
    method DeviceTake() returns (h: int)
      requires Valid()
      modifies this`devIdx, this`chains, this`pending, this`taken, this`working
      ensures Valid() && (h == -1 <==> old(pending) == [])
      ensures h == -1 ==> chains == old(chains) && pending == old(pending)
      ensures h != -1 ==> h == old(pending)[0] && pending == old(pending)[1..] && h in old(chains)
                          && chains == old(chains)[h := old(chains)[h].(stage := Working)]
    {
      hide PartitionOk, LinksOk, RequestsOk, InfoOk, QueueOk, RingsOk, WorkingOk;
      ghost var queue := pending;
      SameIndices();
      if devIdx == availIdx { return -1; }
      h := PopAvail();
      PopQueue(queue, chains, Published, Working);
      OtherQueue(completed, chains, Done, h, Working);
      Moves(h, Working);
      WorkingMoves(working, chains, h, chains[h].(stage := Working));
      working := working + {h};
      chains := chains[h := chains[h].(stage := Working)];
    }

    lemma SameIndices()
      requires RingsOk()
      ensures devIdx == availIdx <==> pending == []
    {
      ReadRing(avail, taken, pending, devIdx, availIdx);
    }

    /** The device's next entry of the avail ring. */
    method PopAvail() returns (h: int)
      requires RingsOk() && devIdx != availIdx
      modifies this`devIdx, this`pending, this`taken
      ensures RingsOk() && old(pending) != [] && h == old(pending)[0] && pending == old(pending)[1..]
    {
      ReadRing(avail, taken, pending, devIdx, availIdx);
      hide RingState;
      h := avail[devIdx % NUM];
      devIdx := (devIdx + 1) % U16;
      pending, taken := pending[1..], taken + 1;
    }

    /** A change of stage that leaves the buffer's disk flag as it is. */
    lemma Moves(h: int, stage: Stage)
      requires PartitionOk(free, owner, chains) && LinksOk(desc, chains) && RequestsOk(ops, data, sectors, chains) && InfoOk(info, busy, chains) && h in chains
      requires stage == Working && chains[h].stage != Seen
      ensures var chains' := chains[h := chains[h].(stage := stage)];
              && PartitionOk(free, owner, chains') && LinksOk(desc, chains') && RequestsOk(ops, data, sectors, chains')
              && InfoOk(info, busy, chains') && Index(h) && h != -1
    {
      StageOk(free, owner, chains, h, stage);
      SameRequests(h, stage);
    }

    /**
     * The device completes a chain it has taken, in any order.  It follows the descriptors from the
     * head, moves the data as they and the header say, stores status 0 and adds to the used ring.
     * What it moves is what the driver was asked for.
     */
    method DeviceComplete(h: int)
      requires Valid() && h in chains && chains[h].stage == Working
      modifies this`info, this`used, this`usedIdx, this`chains, this`completed, this`data, this`sectors, this`working
      ensures Valid() && chains == old(chains)[h := old(chains)[h].(stage := Done)] && completed == old(completed) + [h]
      ensures Moved(old(data), old(sectors), data, sectors, old(chains)[h].b, old(chains)[h].blockno, old(chains)[h].write)
    {
      hide PartitionOk, LinksOk, RequestsOk, InfoOk, QueueOk, RingsOk, Moved, WorkingOk;
      var at, status;
      at, status := Transfer(h);
      Report(h, at, status);
    }

    /** The device stores the status and adds to the used ring. */
    method Report(h: int, at: int, status: int)
      requires Valid() && h in chains && chains[h].stage == Working && at == h && status == 0
      modifies this`info, this`used, this`usedIdx, this`chains, this`completed, this`working
      ensures Valid() && chains == old(chains)[h := old(chains)[h].(stage := Done)] && completed == old(completed) + [h]
    {
      hide PartitionOk, LinksOk, RequestsOk, InfoOk, QueueOk, RingsOk, WorkingOk;
      CompleteOk(h);
      WorkingMoves(working, chains, h, chains[h].(stage := Done));
      info := info[at := info[at].(status := status)];
      PushUsed(h);
      working := working - {h};
      chains := chains[h := chains[h].(stage := Done)];
    }

    lemma CompleteOk(h: int)
      requires PartitionOk(free, owner, chains) && LinksOk(desc, chains) && RequestsOk(ops, data, sectors, chains) && InfoOk(info, busy, chains)
      requires QueueOk(pending, chains, Published) && QueueOk(completed, chains, Done) && h in chains && chains[h].stage == Working
      ensures |info| == NUM && |completed| < NUM && Index(h)
      ensures var chains' := chains[h := chains[h].(stage := Done)];
              && PartitionOk(free, owner, chains') && LinksOk(desc, chains') && RequestsOk(ops, data, sectors, chains')
              && InfoOk(info[h := info[h].(status := 0)], busy, chains')
              && QueueOk(pending, chains', Published) && QueueOk(completed + [h], chains', Done)
    {
      hide PartitionOk, LinksOk, RequestsOk, QueueOk;
      LinksLength();
      Members(free, owner, chains, h);
      StageOk(free, owner, chains, h, Done);
      SameRequests(h, Done);
      CompleteFits(h);
      PushQueue(completed, chains, Done, h);
      OtherQueue(pending, chains, Published, h, Done);
    }

    lemma SameRequests(h: int, stage: Stage)
      requires LinksOk(desc, chains) && RequestsOk(ops, data, sectors, chains) && h in chains
      ensures var chains' := chains[h := chains[h].(stage := stage)];
              LinksOk(desc, chains') && RequestsOk(ops, data, sectors, chains')
    {
    }

    /** The device's entry in the used ring, then the index. */
    method PushUsed(h: int)
      requires RingsOk() && |completed| < NUM
      modifies this`used, this`usedIdx, this`completed
      ensures RingsOk() && completed == old(completed) + [h]
    {
      WriteRing(used, counted, completed, seenIdx, usedIdx, h);
      hide RingState;
      used := used[usedIdx % NUM := h];
      usedIdx := (usedIdx + 1) % U16;
      completed := completed + [h];
    }

    /** The interrupt handler's next entry of the used ring. */
    method PopUsed() returns (id: int)
      requires RingsOk() && seenIdx != usedIdx
      modifies this`seenIdx, this`completed, this`counted
      ensures RingsOk() && old(completed) != [] && id == old(completed)[0] && completed == old(completed)[1..]
    {
      ReadRing(used, counted, completed, seenIdx, usedIdx);
      hide RingState;
      id := used[seenIdx % NUM];
      seenIdx := (seenIdx + 1) % U16;
      completed, counted := completed[1..], counted + 1;
    }

    /**
     * The device follows the chain and moves as many sectors as the data descriptor has room for, if the
     * descriptor lets it: it may write only where flagWrite is set, and read only where it is not.  It
     * wants a header of 16 bytes before the data and one byte for the status after it.  The results are
     * where the status goes, and the status.
     */
    method Transfer(h: int) returns (at: int, status: int)
      requires PartitionOk(free, owner, chains) && LinksOk(desc, chains) && RequestsOk(ops, data, sectors, chains) && h in chains
      modifies this`data, this`sectors
      ensures at == h && status == 0 && RequestsOk(ops, data, sectors, chains)
      ensures Moved(old(data), old(sectors), data, sectors, chains[h].b, chains[h].blockno, chains[h].write)
    {
      hide PartitionOk, LinksOk, RequestsOk, SectorOf, Scatter, Gather;
      Reads(h);
      var head := desc[h];
      var block := desc[head.next];
      var result := desc[block.next];
      var req := ops[head.addr.i];
      var n := block.len / SECTOR;
      status := IOERR;
      var fits := head.flagNext && !head.flagWrite && head.len == 16 && block.flagNext && !result.flagNext && result.flagWrite && result.len == 1;
      if fits && req.kind == 1 && !block.flagWrite {
        SectorsStored(h, n);
        sectors := Scatter(sectors, req.sector, data[block.addr.b][..n * SECTOR], n);
        status := 0;
      } else if fits && req.kind == 0 && block.flagWrite {
        SectorsLoaded(h, n);
        data := data[block.addr.b := Gather(sectors, req.sector, n) + data[block.addr.b][n * SECTOR..]];
        status := 0;
      }
      return result.addr.i, status;
    }

    /** What the device finds when it follows a chain. */
    lemma Reads(h: int)
      requires PartitionOk(free, owner, chains) && LinksOk(desc, chains) && RequestsOk(ops, data, sectors, chains) && h in chains
      ensures var c := chains[h];
              && Index(h) && Index(c.d1) && Index(c.d2) && |desc| == NUM && |ops| == NUM
              && desc[h] == HeadDesc(h, c.d1) && desc[c.d1] == DataDesc(c.b, c.write, c.d2) && desc[c.d2] == StatusDesc(h)
              && ops[h] == ReqOf(c.blockno, c.write) && There(data, sectors, c.b, c.blockno)
    {
    }

    /** A block fills the sectors that its descriptor has room for. */
    lemma SectorsStored(h: int, n: int)
      requires RequestsOk(ops, data, sectors, chains) && h in chains && n == BSIZE / SECTOR && There(data, sectors, chains[h].b, chains[h].blockno)
      ensures var c := chains[h];
              && |data[c.b][..n * SECTOR]| == n * SECTOR
              && var sectors' := Scatter(sectors, SectorOf(c.blockno), data[c.b][..n * SECTOR], n);
                 RequestsOk(ops, data, sectors', chains) && Written(sectors, sectors', c.blockno, data[c.b])
    {
      hide SectorOf, Scatter, RequestsOk;
      var c := chains[h];
      assert data[c.b][..n * SECTOR] == data[c.b];
      var sectors' := Scatter(sectors, SectorOf(c.blockno), data[c.b], n);
      forall k ensures k in sectors' <==> k in sectors { }
      Transferred(data, sectors');
    }

    lemma SectorsLoaded(h: int, n: int)
      requires RequestsOk(ops, data, sectors, chains) && h in chains && n == BSIZE / SECTOR && There(data, sectors, chains[h].b, chains[h].blockno)
      ensures var c := chains[h];
              && HasSectors(sectors, SectorOf(c.blockno), n) && n * SECTOR == |data[c.b]|
              && var data' := data[c.b := Gather(sectors, SectorOf(c.blockno), n) + data[c.b][n * SECTOR..]];
                 RequestsOk(ops, data', sectors, chains) && Shows(sectors, c.blockno, data'[c.b])
    {
      hide SectorOf, Gather, RequestsOk;
      var c := chains[h];
      Transferred(data[c.b := Gather(sectors, SectorOf(c.blockno), n) + data[c.b][n * SECTOR..]], sectors);
    }

    lemma Transferred(data': Buffers, sectors': Sectors)
      requires RequestsOk(ops, data, sectors, chains)
      requires forall b | b in data && |data[b]| == BSIZE :: b in data' && |data'[b]| == BSIZE
      requires forall k | k in sectors && |sectors[k]| == SECTOR :: k in sectors' && |sectors'[k]| == SECTOR
      ensures RequestsOk(ops, data', sectors', chains)
    {
      hide SectorOf;
    }

    lemma CompleteFits(h: int)
      requires PartitionOk(free, owner, chains) && QueueOk(completed, chains, Done) && h in chains && chains[h].stage == Working
      ensures |completed| < NUM
    {
      QueueFits(completed, h);
    }

    /** Chains that were Done when the interrupt handler ran are Seen. */
    static ghost function Handled(chains: Chains): (r: Chains)
      ensures r.Keys == chains.Keys
      ensures forall h | h in chains :: r[h] == if chains[h].stage == Done then chains[h].(stage := Seen) else chains[h]
    {
      map h | h in chains :: if chains[h].stage == Done then chains[h].(stage := Seen) else chains[h]
    }

    /**
     * virtio_disk_intr(): every completed chain is seen, and the disk flags of exactly their buffers
     * are cleared; the status panic is unreachable.
     */
    method Intr()
      requires Valid()
      modifies this`busy, this`seenIdx, this`chains, this`completed, this`counted
      ensures Valid() && completed == [] && chains == Handled(old(chains)) && busy.Keys == old(busy).Keys
      ensures forall b | b in busy ::
                busy[b] == if exists h :: h in old(chains) && old(chains)[h].stage == Done && old(chains)[h].b == b then false else old(busy)[b]
    {
      hide PartitionOk, LinksOk, RequestsOk, InfoOk, QueueOk, RingState;
      ghost var chains0, busy0 := chains, busy;
      while seenIdx != usedIdx
        invariant Valid() && Handling(chains0, busy0)
        decreases |completed|
      {
        HandleNext();
      }
      ReadRing(used, counted, completed, seenIdx, usedIdx);
      AllHandled(chains0, busy0);
    }

    /** Chains only move on, from stage to stage. */
    static ghost predicate Advanced(chains0: Chains, chains: Chains) {
      && chains.Keys == chains0.Keys
      && forall h | h in chains :: chains[h] == chains0[h].(stage := chains[h].stage) && Rank(chains0[h].stage) <= Rank(chains[h].stage)
    }

    static function Rank(stage: Stage): int {
      match stage case Published => 0 case Working => 1 case Done => 2 case Seen => 3
    }

    static ghost function Unseen(chains: Chains): set<int> { set h | h in chains && chains[h].stage != Seen }

    /** The device runs for a while: it takes chains, and completes some that it has taken. */
    method DeviceRuns(steps: seq<DeviceStep>)
      requires Valid()
      modifies this`devIdx, this`pending, this`taken, this`working, this`info, this`used, this`usedIdx, this`chains, this`completed, this`data, this`sectors
      ensures Valid() && Advanced(old(chains), chains) && Unseen(chains) == Unseen(old(chains))
    {
      hide PartitionOk, LinksOk, RequestsOk, InfoOk, QueueOk, RingsOk, Unseen;
      AdvancedRefl(chains);
      var k := 0;
      while k < |steps|
        invariant 0 <= k <= |steps| && Valid() && Advanced(old(chains), chains) && Unseen(chains) == Unseen(old(chains))
      {
        ghost var chains1 := chains;
        DeviceMoves(steps[k]);
        AdvancedTrans(old(chains), chains1, chains);
        k := k + 1;
      }
    }

    lemma AdvancedRefl(chains: Chains)
      ensures Advanced(chains, chains)
    {
    }

    lemma AdvancedTrans(c0: Chains, c1: Chains, c2: Chains)
      requires Advanced(c0, c1) && Advanced(c1, c2)
      ensures Advanced(c0, c2)
    {
    }

    /** One step of the device, if it can take it. */
    method DeviceMoves(step: DeviceStep)
      requires Valid()
      modifies this`devIdx, this`pending, this`taken, this`working, this`info, this`used, this`usedIdx, this`chains, this`completed, this`data, this`sectors
      ensures Valid() && Advanced(old(chains), chains) && Unseen(chains) == Unseen(old(chains))
    {
      hide PartitionOk, LinksOk, RequestsOk, InfoOk, RingsOk;
      ghost var chains0 := chains;
      match step
      case Take =>
        ghost var queue := pending;
        var h;
        h := DeviceTake();
        if h == -1 { AdvancedRefl(chains); } else { Onward(chains0, queue, h); }
      case Complete(h) =>
        if h in working {
          DeviceComplete(h);
        }
    }

    lemma Onward(chains0: Chains, queue: seq<int>, h: int)
      requires QueueOk(queue, chains0, Published) && queue != [] && h == queue[0] && h in chains0 && chains == chains0[h := chains0[h].(stage := Working)]
      ensures Advanced(chains0, chains) && Unseen(chains) == Unseen(chains0)
    {
    }

    /**
     * virtio_disk_intr() while the device goes on: script[k] is what the device does before the
     * handler looks at the used ring for the k-th time.  The handler ends, for each chain is seen
     * once; no completed chain is left; and flags are cleared for exactly the buffers whose chains are seen.
     */
    method IntrDuring(script: seq<seq<DeviceStep>>)
      requires Valid()
      modifies this`devIdx, this`pending, this`taken, this`working, this`info, this`used, this`usedIdx, this`chains, this`completed, this`data, this`sectors
      modifies this`busy, this`seenIdx, this`counted
      ensures Valid() && completed == [] && Advanced(old(chains), chains) && busy.Keys == old(busy).Keys
      ensures forall h | h in chains :: chains[h].stage != Done && (old(chains)[h].stage == Done ==> chains[h].stage == Seen)
      ensures forall b | b in busy ::
                busy[b] == if exists h :: h in chains && chains[h].stage == Seen && chains[h].b == b then false else old(busy)[b]
    {
      hide PartitionOk, LinksOk, RequestsOk, InfoOk, QueueOk, RingState, Unseen;
      ghost var chains0, busy0 := chains, busy;
      var k := 1;
      AdvancedRefl(chains);
      if script != [] { DeviceRuns(script[0]); }
      while seenIdx != usedIdx
        invariant Valid() && Advanced(chains0, chains) && busy.Keys == busy0.Keys && Cleared(chains, busy0, busy) && 1 <= k
        decreases |Unseen(chains)|
      {
        ghost var chains1, busy1 := chains, busy;
        HandleNext();
        SeenOne(chains0, chains1, busy0, busy1, chains, busy);
        ghost var chains2 := chains;
        if k < |script| {
          DeviceRuns(script[k]);
          AdvancedTrans(chains0, chains2, chains);
          ClearedStill(chains2, chains, busy0, busy);
        }
        k := k + 1;
      }
      ReadRing(used, counted, completed, seenIdx, usedIdx);
      NoneLeft(chains0, busy0);
    }

    /** Flags differ from busy0 only where a seen chain's buffer has been cleared. */
    static ghost predicate Cleared(chains: Chains, busy0: map<int, bool>, busy: map<int, bool>) {
      forall b | b in busy && b in busy0 && busy[b] != busy0[b] :: exists h :: h in chains && chains[h].stage == Seen && chains[h].b == b
    }

    lemma ClearedStill(chains1: Chains, chains2: Chains, busy0: map<int, bool>, busy: map<int, bool>)
      requires Cleared(chains1, busy0, busy) && Advanced(chains1, chains2)
      ensures Cleared(chains2, busy0, busy)
    {
      forall b | b in busy && b in busy0 && busy[b] != busy0[b] ensures exists h :: h in chains2 && chains2[h].stage == Seen && chains2[h].b == b {
        var h :| h in chains1 && chains1[h].stage == Seen && chains1[h].b == b;
        assert h in chains2 && chains2[h].stage == Seen && chains2[h].b == b;
      }
    }

    /** The handler saw one chain. */
    lemma SeenOne(chains0: Chains, chains1: Chains, busy0: map<int, bool>, busy1: map<int, bool>, chains2: Chains, busy2: map<int, bool>)
      requires Advanced(chains0, chains1) && Cleared(chains1, busy0, busy1) && busy1.Keys == busy0.Keys
      requires exists h :: h in chains1 && chains1[h].stage == Done && chains2 == chains1[h := chains1[h].(stage := Seen)]
                           && chains1[h].b in busy1 && busy2 == busy1[chains1[h].b := false]
      ensures Advanced(chains0, chains2) && Cleared(chains2, busy0, busy2) && busy2.Keys == busy0.Keys && |Unseen(chains2)| < |Unseen(chains1)|
    {
      var h :| h in chains1 && chains1[h].stage == Done && chains2 == chains1[h := chains1[h].(stage := Seen)]
               && chains1[h].b in busy1 && busy2 == busy1[chains1[h].b := false];
      AdvancedTrans(chains0, chains1, chains2);
      ClearedStill(chains1, chains2, busy0, busy1);
      assert Unseen(chains2) == Unseen(chains1) - {h};
      forall b | b in busy2 && b in busy0 && busy2[b] != busy0[b] ensures exists g :: g in chains2 && chains2[g].stage == Seen && chains2[g].b == b {
        if b == chains1[h].b { assert chains2[h].stage == Seen && chains2[h].b == b; } else { assert busy1[b] != busy0[b]; }
      }
    }

    lemma NoneLeft(chains0: Chains, busy0: map<int, bool>)
      requires Advanced(chains0, chains) && Cleared(chains, busy0, busy) && busy.Keys == busy0.Keys && completed == []
      requires QueueOk(completed, chains, Done) && InfoOk(info, busy, chains) && PartitionOk(free, owner, chains)
      ensures forall h | h in chains :: chains[h].stage != Done && (chains0[h].stage == Done ==> chains[h].stage == Seen)
      ensures forall b | b in busy ::
                busy[b] == if exists h :: h in chains && chains[h].stage == Seen && chains[h].b == b then false else busy0[b]
    {
      forall h | h in chains && chains[h].stage == Seen ensures chains[h].b in busy && !busy[chains[h].b] { assert Index(h); }
    }

    /** One entry of the used ring. */
    method HandleNext()
      requires Valid() && seenIdx != usedIdx
      modifies this`busy, this`seenIdx, this`chains, this`completed, this`counted
      ensures Valid() && old(completed) != [] && completed == old(completed)[1..]
      ensures var h := old(completed)[0];
              && h in old(chains) && old(chains)[h].stage == Done && chains == old(chains)[h := old(chains)[h].(stage := Seen)]
              && old(chains)[h].b in old(busy) && busy == old(busy)[old(chains)[h].b := false]
    {
      hide PartitionOk, LinksOk, RequestsOk, InfoOk, QueueOk, RingsOk, WorkingOk;
      ghost var queue := completed;
      var id;
      id := PopUsed();
      PopQueue(queue, chains, Done, Seen);
      OtherQueue(pending, chains, Published, id, Seen);
      IsSeen(id);
      if info[id].status != 0 { assert false; }
      busy := busy[info[id].b := false];
      WorkingMoves(working, chains, id, chains[id].(stage := Seen));
      chains := chains[id := chains[id].(stage := Seen)];
    }

    /** Some of the chains that were Done are Seen now, with their buffers' flags cleared. */
    ghost predicate Handling(chains0: Chains, busy0: map<int, bool>)
      reads this
    {
      && chains.Keys == chains0.Keys && busy.Keys == busy0.Keys
      && (forall h | h in chains :: chains[h] == chains0[h] || (chains0[h].stage == Done && chains[h] == chains0[h].(stage := Seen)))
      && (forall b | b in busy :: busy[b] == busy0[b] || (!busy[b] && exists h :: h in chains0 && chains0[h].stage == Done && chains0[h].b == b))
    }

    /** The completed chain's buffer is recorded under its head, with status 0. */
    lemma IsSeen(h: int)
      requires PartitionOk(free, owner, chains) && LinksOk(desc, chains) && RequestsOk(ops, data, sectors, chains) && InfoOk(info, busy, chains)
      requires h in chains && chains[h].stage == Done
      ensures Index(h) && |info| == NUM && info[h].status == 0 && info[h].b == chains[h].b && chains[h].b in busy
      ensures var chains' := chains[h := chains[h].(stage := Seen)];
              && PartitionOk(free, owner, chains') && LinksOk(desc, chains') && RequestsOk(ops, data, sectors, chains')
              && InfoOk(info, busy[chains[h].b := false], chains')
    {
      StageOk(free, owner, chains, h, Seen);
    }

    lemma AllHandled(chains0: Chains, busy0: map<int, bool>)
      requires Handling(chains0, busy0) && completed == [] && QueueOk(completed, chains, Done)
      requires InfoOk(info, busy, chains) && PartitionOk(free, owner, chains)
      ensures chains == Handled(chains0)
      ensures forall b | b in busy ::
                busy[b] == if exists h :: h in chains0 && chains0[h].stage == Done && chains0[h].b == b then false else busy0[b]
    {
      forall h | h in chains0 && chains0[h].stage == Done ensures chains[h].stage == Seen && chains0[h].b in busy && !busy[chains0[h].b] {
        assert h in chains && Index(h);
      }
      assert forall h | h in chains0 :: chains[h] == Handled(chains0)[h];
    }

    /**
     * The end of virtio_disk_rw(), once b->disk is 0: forget the buffer and free the chain.
     * Both panics of free_desc() are unreachable.
     */
    method Finish(h: int)
      requires Valid() && h in chains && chains[h].stage == Seen
      modifies this`info, this`desc, this`free, this`owner, this`chains
      ensures Valid() && chains == old(chains) - {h}
    {
      hide PartitionOk, LinksOk, RequestsOk, InfoOk, QueueOk, RingsOk, WorkingOk;
      LinksLength();
      DropQueues(h);
      DropInfo(h);
      DropChainOk(free, owner, chains, h);
      ChainLinks(h);
      Lengths();
      ghost var c := chains[h];
      ghost var owner1 := owner[h := HELD][c.d1 := HELD][c.d2 := HELD];
      DropLinks(h);
      info := info[h := info[h].(b := NOBUF)];
      owner := owner1;
      chains := chains - {h};
      FreeChain(h, c.d1, c.d2);
    }

    /** One whole virtio_disk_rw(), with a device that serves it and interrupts. */
    method Rw(b: int, blockno: int, write: bool)
      requires Valid() && chains == map[] && b != NOBUF && There(data, sectors, b, blockno)
      modifies this
      ensures Valid() && chains == map[] && Moved(old(data), old(sectors), data, sectors, b, blockno, write) && b in busy && !busy[b]
    {
      hide Valid, There, Moved;
      var ok, h;
      NonePending();
      ok, h := Start(b, blockno, write);
      Serve();
      Settle(h);
    }

    /** The device takes the next request and completes it. */
    method Serve()
      requires Valid() && pending != []
      modifies this`devIdx, this`pending, this`taken, this`working, this`info, this`used, this`usedIdx, this`chains, this`completed, this`data, this`sectors
      ensures var h := old(pending)[0];
              && Valid() && h in old(chains) && chains == old(chains)[h := old(chains)[h].(stage := Done)]
              && Moved(old(data), old(sectors), data, sectors, old(chains)[h].b, old(chains)[h].blockno, old(chains)[h].write)
    {
      hide Valid, Moved;
      var h;
      h := DeviceTake();
      HeadsAre(h);
      DeviceComplete(h);
    }

    lemma HeadsAre(h: int)
      requires Valid()
      ensures -1 !in chains
    {
    }

    /** The interrupt for the only request, and the end of its virtio_disk_rw(). */
    method Settle(h: int)
      requires Valid() && chains.Keys == {h} && chains[h].stage == Done
      modifies this`busy, this`seenIdx, this`chains, this`completed, this`counted, this`info, this`desc, this`free, this`owner
      ensures Valid() && chains == map[] && old(chains)[h].b in busy && !busy[old(chains)[h].b]
    {
      hide Valid;
      BufferBusy(h);
      ghost var b := chains[h].b;
      Intr();
      Finish(h);
    }

    lemma BufferBusy(h: int)
      requires Valid() && h in chains
      ensures chains[h].b in busy
    {
      assert Index(h);
    }

    lemma NonePending()
      requires Valid() && chains == map[]
      ensures pending == [] && |chains| == 0
    {
      QueueHead(pending, chains, Published);
    }

    /**
     * What is written to a block is read back, whatever has been written to another block in between:
     * buffer b goes to block m, buffer c to block n, and block m is read into buffer b'.
     */
    method RoundTrip(b: int, m: int, c: int, n: int, b': int)
      requires Valid() && chains == map[] && b != NOBUF && c != NOBUF && b' != NOBUF && There(data, sectors, b, m) && There(data, sectors, c, n)
      requires b' in data && |data[b']| == BSIZE && 0 <= m < U32 && 0 <= n < U32 && m % 0x8000_0000 != n % 0x8000_0000
      modifies this
      ensures Valid() && chains == map[] && b' in data && data[b'] == old(data)[b]
      ensures forall x | x in old(data) && x != b' :: x in data && data[x] == old(data)[x]
    {
      hide Valid, Shows;
      ghost var s0 := sectors;
      Rw(b, m, true);
      ghost var s1 := sectors;
      StillThere(s0, s1, m, n, data[b]);
      Rw(c, n, true);
      StillShows(s1, sectors, m, n, data[b], data[c]);
      ShownThere(sectors, m, data[b]);
      ghost var bytes := data[b];
      Rw(b', m, false);
      ShowsOne(sectors, m, bytes, data[b']);
    }

    lemma StillThere(s0: Sectors, s1: Sectors, m: int, n: int, bytes: seq<int>)
      requires Written(s0, s1, m, bytes) && HasSectors(s0, SectorOf(n), BSIZE / SECTOR)
      ensures HasSectors(s1, SectorOf(n), BSIZE / SECTOR)
    {
      hide SectorOf;
    }

    lemma ShownThere(s: Sectors, m: int, bytes: seq<int>)
      requires Shows(s, m, bytes)
      ensures HasSectors(s, SectorOf(m), BSIZE / SECTOR)
    {
    }

    /** free_chain() of the chain h, d1, d2. */
    method FreeChain(h: int, ghost d1: int, ghost d2: int)
      requires PartitionOk(free, owner, chains) && LinksOk(desc, chains) && |desc| == NUM && |owner| == NUM && |free| == NUM
      requires Index(h) && Index(d1) && Index(d2) && h != d1 && h != d2 && d1 != d2
      requires owner[h] == owner[d1] == owner[d2] == HELD
      requires desc[h].flagNext && desc[h].next == d1 && desc[d1].flagNext && desc[d1].next == d2 && !desc[d2].flagNext
      modifies this`desc, this`free, this`owner
      ensures PartitionOk(free, owner, chains) && LinksOk(desc, chains)
      ensures owner == old(owner)[h := FREE][d1 := FREE][d2 := FREE]
    {
      hide PartitionOk, LinksOk;
      ghost var desc0, owner0 := desc, owner;
      ghost var k := 0;
      var i := h;
      while true
        invariant 0 <= k <= 2 && i == (if k == 0 then h else if k == 1 then d1 else d2) && |desc| == NUM
        invariant PartitionOk(free, owner, chains) && |owner| == NUM && |free| == NUM
        invariant owner == (if k == 0 then owner0 else if k == 1 then owner0[h := FREE] else owner0[h := FREE][d1 := FREE])
        invariant desc == (if k == 0 then desc0 else if k == 1 then desc0[h := NODESC] else desc0[h := NODESC][d1 := NODESC])
        decreases 2 - k
      {
        var flag, nxt := desc[i].flagNext, desc[i].next;
        var panic;
        Lengths();
        panic := FreeDesc(i);
        assert panic == 0;
        if flag {
          i := nxt;
          k := k + 1;
        } else {
          break;
        }
      }
      Lengths();
      LinksKept(desc0, desc, free, owner, chains);
    }

    lemma DropQueues(h: int)
      requires QueueOk(pending, chains, Published) && QueueOk(completed, chains, Done) && h in chains && chains[h].stage == Seen
      requires WorkingOk(working, chains)
      ensures QueueOk(pending, chains - {h}, Published) && QueueOk(completed, chains - {h}, Done) && WorkingOk(working, chains - {h})
    {
    }

    lemma DropInfo(h: int)
      requires PartitionOk(free, owner, chains) && InfoOk(info, busy, chains) && h in chains
      ensures Index(h) && |info| == NUM && InfoOk(info[h := info[h].(b := NOBUF)], busy, chains - {h})
    {
    }

    lemma ChainLinks(h: int)
      requires PartitionOk(free, owner, chains) && LinksOk(desc, chains) && h in chains
      ensures var c := chains[h];
              && Index(h) && Index(c.d1) && Index(c.d2) && h != c.d1 && h != c.d2 && c.d1 != c.d2 && |desc| == NUM
              && desc[h].flagNext && desc[h].next == c.d1 && desc[c.d1].flagNext && desc[c.d1].next == c.d2 && !desc[c.d2].flagNext
    {
    }

    lemma DropLinks(h: int)
      requires LinksOk(desc, chains) && RequestsOk(ops, data, sectors, chains) && h in chains
      ensures LinksOk(desc, chains - {h}) && RequestsOk(ops, data, sectors, chains - {h})
    {
    }
  }
}
