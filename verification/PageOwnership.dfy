/**
 * Who owns which physical page, and what a page table maps (vm.c, kalloc.c).
 *
 * Virtual and physical addresses are given by page number.  A page-table page at depth d
 * (0 is the root) covers the virtual page numbers with one common prefix; the prefix of a
 * child is its parent's followed by nine more bits, its index in the parent.
 */
module PageOwnership {
  import opened Counting

  const MAXVPN: int := 0x400_0000           // MAXVA / PGSIZE
  const TRAMPOLINE: int := MAXVPN - 1
  const TRAPFRAME: int := MAXVPN - 2        // user memory is below this page
  const PHYSTOP: int := 0x8_8000            // physical pages are below this one

  /** A page-table entry: physical page number and flags. */
  datatype Pte = Pte(ppn: int, v: bool, r: bool, w: bool, x: bool, u: bool) {
    predicate Leaf() { r || w || x }
  }

  const ZERO: Pte := Pte(0, false, false, false, false, false)
  function EmptyTable(): seq<Pte> { seq(512, i => ZERO) }

  // What memset(pa, 1, PGSIZE) and memset(r, 5, PGSIZE) leave in a page: entries that look valid.
  const ONES: Pte := Pte(0x0101010101010101 / 1024, true, false, false, false, false)
  const FIVES: Pte := Pte(0x0505050505050505 / 1024, true, false, true, false, false)

  function Link(page: int): Pte { Pte(page, true, false, false, false, false) }

  /** Physical memory: the contents of a page, as page-table entries. */
  type Mem = map<int, seq<Pte>>

  /** The one use of a page: on the free list, held by kernel code, or a node of an address space. */
  datatype Owner =
    | Free
    | Kernel
    | Node(root: int, depth: int, prefix: int, parent: int)   // depth 3: a user page

  type Owners = map<int, Owner>

  /** The prefix of a virtual page number at depth d. */
  function Pre(v: int, d: int): int {
    if d <= 0 then 0 else if d == 1 then v / 0x40000 else if d == 2 then v / 512 else v
  }

  /** The index PX(level, va) into the table at depth d == 2 - level. */
  function Px(v: int, d: int): int {
    Pre(v, d + 1) % 512
  }

  lemma PreStep(v: int, d: int)
    requires 0 <= v < MAXVPN && 0 <= d <= 2
    ensures Pre(v, d + 1) == Pre(v, d) * 512 + Px(v, d) && Pre(v, d + 1) / 512 == Pre(v, d)
    ensures 0 <= Px(v, d) < 512
  {
  }

  /** The three indices determine the page: a walk cannot confuse two virtual pages. */
  lemma IndicesDetermine(v: int, v': int)
    requires 0 <= v < MAXVPN && 0 <= v' < MAXVPN
    requires forall d | 0 <= d <= 2 :: Px(v, d) == Px(v', d)
    ensures v == v'
  {
    PreStep(v, 0); PreStep(v, 1); PreStep(v, 2);
    PreStep(v', 0); PreStep(v', 1); PreStep(v', 2);
  }

  // ---------------------------------------------------------------- looking up

  predicate Table(mem: Mem, p: int) {
    p in mem && |mem[p]| == 512
  }

  /** walk() without allocation: the page at depth d on the way to v, or -1. */
  function Find(mem: Mem, root: int, v: int, d: int): int
    requires 0 <= v < MAXVPN && 0 <= d <= 3
    decreases d
  {
    if d == 0 then root else
    var q := Find(mem, root, v, d - 1);
    if q == -1 || !Table(mem, q) then -1 else
    PreStep(v, d - 1);
    var e := mem[q][Px(v, d - 1)];
    if e.v then e.ppn else -1
  }

  /** The page table as a map: the entry for virtual page v (ZERO if there is no table for it). */
  function Mapping(mem: Mem, root: int, v: int): Pte
    requires 0 <= v < MAXVPN
  {
    var q := Find(mem, root, v, 2);
    if q == -1 || !Table(mem, q) then ZERO else mem[q][v % 512]
  }

  // ---------------------------------------------------------------- the invariant

  ghost predicate IsNode(owner: Owners, p: int, root: int, d: int, prefix: int) {
    p in owner && owner[p].Node? && owner[p].root == root && owner[p].depth == d && owner[p].prefix == prefix
  }

  ghost predicate IsRoot(owner: Owners, r: int) {
    IsNode(owner, r, r, 0, 0)
  }

  predicate BelongsTo(o: Owner, r: int) {
    o.Node? && o.root == r
  }

  /** The free list holds exactly the free pages, each once. */
  ghost predicate FreeListOk(owner: Owners, freelist: seq<int>) {
    && (forall i, j | 0 <= i < j < |freelist| :: freelist[i] != freelist[j])
    && (forall p | p in freelist :: p in owner && owner[p] == Free)
    && (forall p | p in owner && owner[p] == Free :: p in freelist)
  }

  /** Node p hangs where its label says. */
  ghost predicate Placed(mem: Mem, owner: Owners, p: int)
    requires p in owner && owner[p].Node?
  {
    var n := owner[p];
    && p in mem && 0 <= n.depth <= 3 && n.prefix >= 0 && (n.depth == 3 ==> n.prefix < TRAPFRAME)
    && (n.depth <= 2 ==> Table(mem, p))
    && (n.depth == 0 ==> p == n.root && n.prefix == 0)
    && (n.depth == 1 ==> n.prefix < 256)
    && (n.depth > 0 ==> && IsNode(owner, n.parent, n.root, n.depth - 1, n.prefix / 512)
                        && Table(mem, n.parent)
                        && mem[n.parent][n.prefix % 512].v && mem[n.parent][n.prefix % 512].ppn == p)
  }

  /** Entry i of table p is zero, or points to a page labelled as the child, or is an allowed leaf. */
  ghost predicate EntryOk(mem: Mem, owner: Owners, p: int, i: int)
    requires p in owner && owner[p].Node? && Table(mem, p) && 0 <= i < 512
  {
    var n, e := owner[p], mem[p][i];
    if !e.v then e == ZERO
    else if n.depth < 2 then
      !e.Leaf() && !e.u && IsNode(owner, e.ppn, n.root, n.depth + 1, n.prefix * 512 + i) && owner[e.ppn].parent == p
    else
        && e.Leaf()
        && (n.prefix * 512 + i < TRAPFRAME ==>
              IsNode(owner, e.ppn, n.root, 3, n.prefix * 512 + i) && owner[e.ppn].parent == p)
  }

  ghost predicate IsTable(owner: Owners, p: int) {
    p in owner && owner[p].Node? && owner[p].depth <= 2
  }

  /** Every page has its place; entry `hi` of table `hp` is not looked at (hp == -1: no exception). */
  ghost predicate TreesOk(mem: Mem, owner: Owners, hp: int, hi: int) {
    && (forall p | p in owner :: 0 < p < PHYSTOP)
    && (forall p | p in owner && owner[p].Node? :: Placed(mem, owner, p))
    && (forall p, i | IsTable(owner, p) && 0 <= i < 512 && !(p == hp && i == hi) :: EntryOk(mem, owner, p, i))
  }

  ghost predicate Inv(mem: Mem, owner: Owners, freelist: seq<int>) {
    FreeListOk(owner, freelist) && TreesOk(mem, owner, -1, 0)
  }

  // ---------------------------------------------------------------- labels and walks agree

  /** A walk in address space `root` does not pass through entry hi of table hp. */
  ghost predicate Avoids(owner: Owners, hp: int, root: int) {
    hp in owner && BelongsTo(owner[hp], root) ==> owner[hp].depth == 2
  }

  /** What a walk finds is labelled with the prefix it followed. */
  lemma {:induction false} FindIsLabelled(mem: Mem, owner: Owners, hp: int, hi: int, root: int, v: int, d: int)
    requires TreesOk(mem, owner, hp, hi) && IsRoot(owner, root) && Avoids(owner, hp, root)
    requires 0 <= v < MAXVPN && 0 <= d <= 2
    ensures var p := Find(mem, root, v, d); p != -1 ==> IsNode(owner, p, root, d, Pre(v, d)) && Table(mem, p)
  {
    if d > 0 {
      FindIsLabelled(mem, owner, hp, hi, root, v, d - 1);
      PreStep(v, d - 1);
      var q := Find(mem, root, v, d - 1);
      if q != -1 { assert EntryOk(mem, owner, q, Px(v, d - 1)); }
    } else {
      assert Placed(mem, owner, root);
    }
  }

  /** A node labelled with v's prefix is on the way to v. */
  lemma {:induction false} LabelledIsFound(mem: Mem, owner: Owners, hp: int, hi: int, p: int, root: int, v: int, d: int)
    requires TreesOk(mem, owner, hp, hi) && 0 <= v < MAXVPN && 0 <= d <= 3
    requires IsNode(owner, p, root, d, Pre(v, d))
    ensures Find(mem, root, v, d) == p
    decreases d
  {
    assert Placed(mem, owner, p);
    if d > 0 {
      PreStep(v, d - 1);
      LabelledIsFound(mem, owner, hp, hi, owner[p].parent, root, v, d - 1);
      assert owner[p].parent > 0;
    }
  }

  lemma PreZero(v: int)
    ensures Pre(v, 0) == 0
  {
  }

  /** One step of a walk, from the table at depth d. */
  lemma WalkStep(mem: Mem, owner: Owners, root: int, page: int, v: int, d: int)
    requires TreesOk(mem, owner, -1, 0) && 0 <= v < MAXVPN && 0 <= d <= 2 && IsNode(owner, page, root, d, Pre(v, d))
    ensures Table(mem, page) && 0 <= Px(v, d) < 512 && (d == 0 ==> Px(v, d) < 256) && page != -1
    ensures Pre(v, d + 1) == Pre(v, d) * 512 + Px(v, d)
    ensures d < 2 && mem[page][Px(v, d)].v ==> IsNode(owner, mem[page][Px(v, d)].ppn, root, d + 1, Pre(v, d + 1))
  {
    PreStep(v, d);
    assert Placed(mem, owner, page);
    assert EntryOk(mem, owner, page, Px(v, d));
  }

  // ---------------------------------------------------------------- writing a leaf entry

  function SetEntry(mem: Mem, p: int, i: int, e: Pte): Mem
    requires Table(mem, p) && 0 <= i < 512
  {
    mem[p := mem[p][i := e]]
  }

  /** The loose end, if any, is in a bottom-level table. */
  ghost predicate HoleLow(owner: Owners, hp: int) {
    hp in owner ==> owner[hp].Node? && owner[hp].depth == 2
  }

  ghost predicate BottomTable(mem: Mem, owner: Owners, p: int) {
    p in owner && owner[p].Node? && owner[p].depth == 2 && Table(mem, p)
  }

  /** A bottom-level table is read only in the last step of a walk. */
  lemma {:induction false} LeafWriteFinds(mem: Mem, owner: Owners, hp: int, hi: int, p: int, i: int, e: Pte, root: int, v: int, d: int)
    requires TreesOk(mem, owner, hp, hi) && HoleLow(owner, hp) && IsRoot(owner, root) && 0 <= v < MAXVPN && 0 <= d <= 2
    requires BottomTable(mem, owner, p) && 0 <= i < 512
    ensures Find(SetEntry(mem, p, i, e), root, v, d) == Find(mem, root, v, d)
  {
    if d > 0 {
      LeafWriteFinds(mem, owner, hp, hi, p, i, e, root, v, d - 1);
      FindIsLabelled(mem, owner, hp, hi, root, v, d - 1);
    }
  }

  /** Writing entry i of the table for prefix x changes the map at x * 512 + i and nowhere else. */
  lemma LeafWriteMapping(mem: Mem, owner: Owners, hp: int, hi: int, p: int, i: int, e: Pte, root: int, v: int)
    requires TreesOk(mem, owner, hp, hi) && HoleLow(owner, hp) && IsRoot(owner, root) && 0 <= v < MAXVPN
    requires BottomTable(mem, owner, p) && 0 <= i < 512
    ensures Mapping(SetEntry(mem, p, i, e), root, v)
            == if root == owner[p].root && v == owner[p].prefix * 512 + i then e else Mapping(mem, root, v)
  {
    LeafWriteFinds(mem, owner, hp, hi, p, i, e, root, v, 2);
    FindIsLabelled(mem, owner, hp, hi, root, v, 2);
    if root == owner[p].root && v == owner[p].prefix * 512 + i {
      LabelledIsFound(mem, owner, hp, hi, p, root, v, 2);
    }
  }

  /** The map at v is the entry in the table labelled with v's prefix. */
  lemma MappingAt(mem: Mem, owner: Owners, t: int, root: int, v: int)
    requires TreesOk(mem, owner, -1, 0) && 0 <= v < MAXVPN && IsNode(owner, t, root, 2, Pre(v, 2))
    ensures Table(mem, t) && Mapping(mem, root, v) == mem[t][v % 512] && v == owner[t].prefix * 512 + v % 512
    ensures Find(mem, root, v, 2) == t
  {
    assert Placed(mem, owner, t);
    LabelledIsFound(mem, owner, -1, 0, t, root, v, 2);
  }

  /** Giving a page to an address space: it becomes the user page that the new entry points to. */
  lemma MapLeafOk(mem: Mem, owner: Owners, p: int, i: int, e: Pte)
    requires TreesOk(mem, owner, -1, 0)
    requires p in owner && owner[p].Node? && owner[p].depth == 2 && Table(mem, p) && 0 <= i < 512
    requires !mem[p][i].v && e.v && e.Leaf()
    requires owner[p].prefix * 512 + i < TRAPFRAME ==> e.ppn in owner && owner[e.ppn] == Kernel && e.ppn in mem
    ensures TreesOk(SetEntry(mem, p, i, e), MappedOwner(owner, p, i, e.ppn), -1, 0)
  {
    var mem', owner' := SetEntry(mem, p, i, e), MappedOwner(owner, p, i, e.ppn);
    assert Placed(mem, owner, p);
    forall y | y in owner' && owner'[y].Node? ensures Placed(mem', owner', y) {
      MapPlaced(mem, owner, p, i, e, y);
    }
    forall y, j | IsTable(owner', y) && 0 <= j < 512 ensures EntryOk(mem', owner', y, j) {
      MapEntry(mem, owner, p, i, e, y, j);
    }
  }

  lemma MapEntry(mem: Mem, owner: Owners, p: int, i: int, e: Pte, y: int, j: int)
    requires TreesOk(mem, owner, -1, 0)
    requires p in owner && owner[p].Node? && owner[p].depth == 2 && Table(mem, p) && 0 <= i < 512
    requires !mem[p][i].v && e.v && e.Leaf()
    requires owner[p].prefix * 512 + i < TRAPFRAME ==> e.ppn in owner && owner[e.ppn] == Kernel && e.ppn in mem
    requires IsTable(owner, y) && 0 <= j < 512
    ensures Table(mem, y) && EntryOk(SetEntry(mem, p, i, e), MappedOwner(owner, p, i, e.ppn), y, j)
  {
    assert Placed(mem, owner, y);
    assert EntryOk(mem, owner, y, j);
  }

  lemma MapPlaced(mem: Mem, owner: Owners, p: int, i: int, e: Pte, y: int)
    requires TreesOk(mem, owner, -1, 0)
    requires p in owner && owner[p].Node? && owner[p].depth == 2 && Table(mem, p) && 0 <= i < 512
    requires !mem[p][i].v && e.v
    requires owner[p].prefix * 512 + i < TRAPFRAME ==> e.ppn in owner && owner[e.ppn] == Kernel && e.ppn in mem
    requires y in owner && MappedOwner(owner, p, i, e.ppn)[y].Node?
    ensures Placed(SetEntry(mem, p, i, e), MappedOwner(owner, p, i, e.ppn), y)
  {
    assert Placed(mem, owner, p);
    if owner[y].Node? { assert Placed(mem, owner, y); }
  }

  /** A user page is labelled as such; a mapping at or above TRAPFRAME leaves owners alone. */
  function MappedOwner(owner: Owners, p: int, i: int, page: int): Owners
    requires p in owner && owner[p].Node?
  {
    var n := owner[p];
    if n.prefix * 512 + i < TRAPFRAME then owner[page := Node(n.root, 3, n.prefix * 512 + i, p)] else owner
  }

  // ---------------------------------------------------------------- clearing an entry

  /** No node hangs at entry i of table p. */
  ghost predicate NoChild(owner: Owners, p: int, i: int) {
    forall y | y in owner && owner[y].Node? && owner[y].depth > 0 :: !(owner[y].parent == p && owner[y].prefix % 512 == i)
  }

  /** Taking node c away, when nothing hangs below it, leaves a loose end at its parent's entry. */
  lemma DetachOk(mem: Mem, owner: Owners, c: int)
    requires TreesOk(mem, owner, -1, 0) && c in owner && owner[c].Node?
    requires forall y | y in owner && owner[y].Node? && owner[y].depth > 0 :: owner[y].parent != c
    ensures var n := owner[c];
            TreesOk(mem, owner[c := Kernel], if n.depth == 0 then -1 else n.parent, n.prefix % 512)
    ensures owner[c].depth > 0 ==> NoChild(owner[c := Kernel], owner[c].parent, owner[c].prefix % 512)
  {
    var n, owner' := owner[c], owner[c := Kernel];
    assert Placed(mem, owner, c);
    forall y | y in owner' && owner'[y].Node? ensures Placed(mem, owner', y) {
      assert Placed(mem, owner, y);
    }
    forall y, j | IsTable(owner', y) && 0 <= j < 512 && !(n.depth > 0 && y == n.parent && j == n.prefix % 512)
      ensures EntryOk(mem, owner', y, j)
    {
      assert EntryOk(mem, owner, y, j);
    }
    forall y | n.depth > 0 && y in owner' && owner'[y].Node? && owner'[y].depth > 0
      ensures !(owner'[y].parent == n.parent && owner'[y].prefix % 512 == n.prefix % 512)
    {
      assert Placed(mem, owner, y);
    }
  }

  lemma ClearOk(mem: Mem, owner: Owners, p: int, i: int)
    requires TreesOk(mem, owner, p, i) && IsTable(owner, p) && Table(mem, p) && 0 <= i < 512 && NoChild(owner, p, i)
    ensures TreesOk(SetEntry(mem, p, i, ZERO), owner, -1, 0)
  {
    var mem' := SetEntry(mem, p, i, ZERO);
    forall y | y in owner && owner[y].Node? ensures Placed(mem', owner, y) {
      assert Placed(mem, owner, y);
    }
    forall y, j | IsTable(owner, y) && 0 <= j < 512 ensures EntryOk(mem', owner, y, j) {
      if !(y == p && j == i) { assert EntryOk(mem, owner, y, j); }
    }
  }

  /** A leaf entry for user memory belongs to the page it points to; above TRAPFRAME nothing hangs. */
  lemma LeafChild(mem: Mem, owner: Owners, p: int, i: int)
    requires TreesOk(mem, owner, -1, 0)
    requires p in owner && owner[p].Node? && owner[p].depth == 2 && Table(mem, p) && 0 <= i < 512 && mem[p][i].v
    ensures owner[p].prefix * 512 + i < TRAPFRAME ==>
              IsNode(owner, mem[p][i].ppn, owner[p].root, 3, owner[p].prefix * 512 + i) && owner[mem[p][i].ppn].parent == p
    ensures owner[p].prefix * 512 + i >= TRAPFRAME ==> NoChild(owner, p, i)
    ensures mem[p][i].Leaf()
  {
    assert EntryOk(mem, owner, p, i);
    forall y | owner[p].prefix * 512 + i >= TRAPFRAME && y in owner && owner[y].Node? && owner[y].depth > 0
      ensures !(owner[y].parent == p && owner[y].prefix % 512 == i)
    {
      assert Placed(mem, owner, y);
    }
  }

  /** Nothing hangs below a user page. */
  lemma UserPageIsLast(mem: Mem, owner: Owners, c: int)
    requires TreesOk(mem, owner, -1, 0) && c in owner && owner[c].Node? && owner[c].depth == 3
    ensures forall y | y in owner && owner[y].Node? && owner[y].depth > 0 :: owner[y].parent != c
  {
    forall y | y in owner && owner[y].Node? && owner[y].depth > 0 ensures owner[y].parent != c {
      assert Placed(mem, owner, y);
    }
  }

  /** Nothing hangs below a table whose entries are all invalid. */
  lemma EmptyTableIsLast(mem: Mem, owner: Owners, p: int)
    requires TreesOk(mem, owner, -1, 0) && IsTable(owner, p) && Table(mem, p)
    requires forall i | 0 <= i < 512 :: !mem[p][i].v
    ensures forall y | y in owner && owner[y].Node? && owner[y].depth > 0 :: owner[y].parent != p
  {
    forall y | y in owner && owner[y].Node? && owner[y].depth > 0 ensures owner[y].parent != p {
      assert Placed(mem, owner, y);
    }
  }

  /** A root without entries is all there is of its address space. */
  lemma EmptyRootIsAll(mem: Mem, owner: Owners, r: int)
    requires TreesOk(mem, owner, -1, 0) && IsRoot(owner, r) && Table(mem, r)
    requires forall i | 0 <= i < 512 :: !mem[r][i].v
    ensures forall y | y in owner && BelongsTo(owner[y], r) :: y == r
  {
    EmptyTableIsLast(mem, owner, r);
    forall y | y in owner && BelongsTo(owner[y], r) ensures owner[y].depth == 0 {
      assert Placed(mem, owner, y);
    }
    forall y | y in owner && BelongsTo(owner[y], r) ensures y == r { assert Placed(mem, owner, y); }
  }

  // ---------------------------------------------------------------- adding a table

  function LinkedMem(mem: Mem, p: int, i: int, c: int): Mem
    requires Table(mem, p) && 0 <= i < 512
  {
    SetEntry(mem, p, i, Link(c))[c := EmptyTable()]
  }

  function LinkedOwner(owner: Owners, p: int, i: int, c: int): Owners
    requires p in owner && owner[p].Node?
  {
    owner[c := Node(owner[p].root, owner[p].depth + 1, owner[p].prefix * 512 + i, p)]
  }

  /** A fresh empty table under a free slot of p. */
  ghost predicate CanLink(mem: Mem, owner: Owners, p: int, i: int, c: int) {
    && TreesOk(mem, owner, -1, 0)
    && p in owner && owner[p].Node? && owner[p].depth < 2 && Table(mem, p) && 0 <= i < 512 && !mem[p][i].v
    && (owner[p].depth == 0 ==> i < 256) && c in owner && owner[c] == Kernel
  }

  lemma LinkOk(mem: Mem, owner: Owners, p: int, i: int, c: int)
    requires CanLink(mem, owner, p, i, c)
    ensures TreesOk(LinkedMem(mem, p, i, c), LinkedOwner(owner, p, i, c), -1, 0)
  {
    var mem', owner' := LinkedMem(mem, p, i, c), LinkedOwner(owner, p, i, c);
    forall y | y in owner' && owner'[y].Node? ensures Placed(mem', owner', y) { LinkPlaced(mem, owner, p, i, c, y); }
    forall y, j | IsTable(owner', y) && 0 <= j < 512 ensures EntryOk(mem', owner', y, j) { LinkEntry(mem, owner, p, i, c, y, j); }
  }

  lemma LinkPlaced(mem: Mem, owner: Owners, p: int, i: int, c: int, y: int)
    requires CanLink(mem, owner, p, i, c) && y in owner && (y == c || owner[y].Node?)
    ensures Placed(LinkedMem(mem, p, i, c), LinkedOwner(owner, p, i, c), y)
  {
    assert Placed(mem, owner, p);
    if y != c { assert Placed(mem, owner, y); }
  }

  lemma LinkEntry(mem: Mem, owner: Owners, p: int, i: int, c: int, y: int, j: int)
    requires CanLink(mem, owner, p, i, c) && 0 <= j < 512 && (y == c || IsTable(owner, y))
    ensures Table(LinkedMem(mem, p, i, c), y) && EntryOk(LinkedMem(mem, p, i, c), LinkedOwner(owner, p, i, c), y, j)
  {
    if y != c {
      assert Placed(mem, owner, y);
      assert EntryOk(mem, owner, y, j);
    }
  }

  lemma {:induction false} LinkFinds(mem: Mem, owner: Owners, p: int, i: int, c: int, root: int, v: int, d: int)
    requires CanLink(mem, owner, p, i, c) && IsRoot(owner, root) && 0 <= v < MAXVPN && 0 <= d <= 2
    ensures var f := Find(LinkedMem(mem, p, i, c), root, v, d);
            && (Find(mem, root, v, d) != -1 ==> f == Find(mem, root, v, d))
            && (Find(mem, root, v, d) == -1 ==> f == -1 || f == c)
  {
    if d > 0 {
      LinkFinds(mem, owner, p, i, c, root, v, d - 1);
      FindIsLabelled(mem, owner, -1, 0, root, v, d - 1);
      PreStep(v, d - 1);
      assert Placed(mem, owner, p);
    }
  }

  /** walk() with alloc adds tables but no mapping, in any address space. */
  lemma LinkMapping(mem: Mem, owner: Owners, p: int, i: int, c: int, root: int, v: int)
    requires CanLink(mem, owner, p, i, c) && IsRoot(owner, root) && 0 <= v < MAXVPN
    ensures Mapping(LinkedMem(mem, p, i, c), root, v) == Mapping(mem, root, v)
  {
    LinkFinds(mem, owner, p, i, c, root, v, 2);
    FindIsLabelled(mem, owner, -1, 0, root, v, 2);
  }

  // ---------------------------------------------------------------- pages outside all trees

  ghost predicate Loose(owner: Owners, p: int) {
    p in owner && !owner[p].Node?
  }

  /** Scribbling on a page outside all trees, or moving it between kernel and free list. */
  lemma LooseOk(mem: Mem, owner: Owners, hp: int, hi: int, p: int, content: seq<Pte>, o: Owner)
    requires TreesOk(mem, owner, hp, hi) && Loose(owner, p) && !o.Node?
    ensures TreesOk(mem[p := content], owner[p := o], hp, hi)
  {
    var mem', owner' := mem[p := content], owner[p := o];
    forall y | y in owner' && owner'[y].Node? ensures Placed(mem', owner', y) {
      assert Placed(mem, owner, y);
    }
    forall y, j | IsTable(owner', y) && 0 <= j < 512 && !(y == hp && j == hi) ensures EntryOk(mem', owner', y, j) {
      assert EntryOk(mem, owner, y, j);
    }
  }

  lemma {:induction false} LooseFinds(mem: Mem, owner: Owners, hp: int, hi: int, p: int, content: seq<Pte>, root: int, v: int, d: int)
    requires TreesOk(mem, owner, hp, hi) && Loose(owner, p) && IsRoot(owner, root) && Avoids(owner, hp, root)
    requires 0 <= v < MAXVPN && 0 <= d <= 2
    ensures Find(mem[p := content], root, v, d) == Find(mem, root, v, d)
  {
    if d > 0 {
      LooseFinds(mem, owner, hp, hi, p, content, root, v, d - 1);
      FindIsLabelled(mem, owner, hp, hi, root, v, d - 1);
    }
  }

  lemma LooseMapping(mem: Mem, owner: Owners, hp: int, hi: int, p: int, content: seq<Pte>, root: int, v: int)
    requires TreesOk(mem, owner, hp, hi) && Loose(owner, p) && IsRoot(owner, root) && Avoids(owner, hp, root)
    requires 0 <= v < MAXVPN
    ensures Mapping(mem[p := content], root, v) == Mapping(mem, root, v)
  {
    LooseFinds(mem, owner, hp, hi, p, content, root, v, 2);
    FindIsLabelled(mem, owner, hp, hi, root, v, 2);
  }

  // ---------------------------------------------------------------- comparing two states

  /** Only free pages were taken, and only by address space r; all else is as it was. */
  ghost predicate Grown(owner: Owners, owner': Owners, r: int) {
    && owner'.Keys == owner.Keys
    && (forall y | y in owner && owner[y] == Free :: owner'[y] == Free || (BelongsTo(owner'[y], r) && owner'[y].depth > 0))
    && (forall y | y in owner && owner[y] != Free :: owner'[y] == owner[y])
  }

  /** Pages moved between the free list and address space r (which keeps its root); all else is as it was. */
  ghost predicate Exchanged(owner: Owners, owner': Owners, r: int) {
    && owner'.Keys == owner.Keys
    && (forall y | y in owner :: Mine(owner[y], r) <==> Mine(owner'[y], r))
    && (forall y | y in owner && !Mine(owner[y], r) :: owner'[y] == owner[y])
  }

  /** Free, or a node of r below the root. */
  predicate Mine(o: Owner, r: int) {
    o == Free || (BelongsTo(o, r) && o.depth > 0)
  }

  /** In every address space, virtual pages outside [lo, hi) of space r are mapped as before. */
  ghost predicate SameMaps(mem: Mem, mem': Mem, owner: Owners, r: int, lo: int, hi: int) {
    forall root, v | IsRoot(owner, root) && 0 <= v < MAXVPN && !(root == r && lo <= v < hi) ::
      Mapping(mem', root, v) == Mapping(mem, root, v)
  }

  /** Pages in use other than tables keep their contents. */
  ghost predicate SameData(mem: Mem, mem': Mem, owner: Owners) {
    forall y | y in mem && y in owner && HoldsData(owner[y]) :: y in mem' && mem'[y] == mem[y]
  }

  predicate HoldsData(o: Owner) {
    o == Kernel || (o.Node? && o.depth == 3)
  }

  lemma SameMapsTrans(m0: Mem, m1: Mem, m2: Mem, o0: Owners, o1: Owners, r: int, lo: int, mid: int, hi: int)
    requires SameMaps(m0, m1, o0, r, lo, mid) && SameMaps(m1, m2, o1, r, mid, hi) && lo <= mid <= hi
    requires forall root | IsRoot(o0, root) :: IsRoot(o1, root)
    ensures SameMaps(m0, m2, o0, r, lo, hi)
  {
  }

  /** Adding tables, then setting one leaf entry in the table t for v. */
  lemma WalkThenSet(m0: Mem, o0: Owners, m1: Mem, o1: Owners, m2: Mem, o2: Owners, root: int, t: int, i: int, page: int, v: int)
    requires Grown(o0, o1, root) && SameMaps(m0, m1, o0, 0, 0, 0) && SameData(m0, m1, o0)
    requires IsNode(o1, t, root, 2, v / 512) && i == v % 512 && o2 == MappedOwner(o1, t, i, page)
    requires v < TRAPFRAME ==> page in o1 && o1[page] == Kernel
    requires SameMaps(m1, m2, o1, root, v, v + 1) && SameData(m1, m2, o1)
    ensures SameMaps(m0, m2, o0, root, v, v + 1) && SameData(m0, m2, o0)
    ensures if v < TRAPFRAME then IsNode(o2, page, root, 3, v) && Grown(o0, o2[page := Kernel], root) else Grown(o0, o2, root)
  {
    GrownFacts(o0, o1, root);
    SameDataTrans(m0, m1, m2, o0, o1);
    if v < TRAPFRAME { assert o2[page := Kernel] == o1; }
  }

  /** Scribbling on a loose page changes no mapping, except maybe in the space with the loose end. */
  lemma LooseSameMaps(mem: Mem, owner: Owners, hp: int, hi: int, p: int, content: seq<Pte>, r: int, top: int)
    requires TreesOk(mem, owner, hp, hi) && Loose(owner, p)
    requires (forall root | IsRoot(owner, root) && root != r :: Avoids(owner, hp, root))
    requires IsRoot(owner, r) && !Avoids(owner, hp, r) ==> top == MAXVPN
    ensures SameMaps(mem, mem[p := content], owner, r, 0, top)
  {
    forall root, v | IsRoot(owner, root) && 0 <= v < MAXVPN && !(root == r && 0 <= v < top)
      ensures Mapping(mem[p := content], root, v) == Mapping(mem, root, v)
    {
      LooseMapping(mem, owner, hp, hi, p, content, root, v);
    }
  }

  lemma LinkSameMaps(mem: Mem, owner: Owners, p: int, i: int, c: int)
    requires CanLink(mem, owner, p, i, c)
    ensures SameMaps(mem, LinkedMem(mem, p, i, c), owner, 0, 0, 0)
  {
    forall root, v | IsRoot(owner, root) && 0 <= v < MAXVPN
      ensures Mapping(LinkedMem(mem, p, i, c), root, v) == Mapping(mem, root, v)
    {
      LinkMapping(mem, owner, p, i, c, root, v);
    }
  }

  lemma LeafSameMaps(mem: Mem, owner: Owners, hp: int, hi: int, p: int, i: int, e: Pte)
    requires TreesOk(mem, owner, hp, hi) && HoleLow(owner, hp) && BottomTable(mem, owner, p) && 0 <= i < 512
    ensures var v := owner[p].prefix * 512 + i;
            SameMaps(mem, SetEntry(mem, p, i, e), owner, owner[p].root, v, v + 1)
  {
    var v := owner[p].prefix * 512 + i;
    forall root, w | IsRoot(owner, root) && 0 <= w < MAXVPN && !(root == owner[p].root && v <= w < v + 1)
      ensures Mapping(SetEntry(mem, p, i, e), root, w) == Mapping(mem, root, w)
    {
      LeafWriteMapping(mem, owner, hp, hi, p, i, e, root, w);
    }
  }

  lemma TakenFreeList(owner: Owners, freelist: seq<int>, c: int, o: Owner)
    requires FreeListOk(owner, freelist) && c in owner && owner[c] != Free && o != Free
    ensures FreeListOk(owner[c := o], freelist)
  {
  }

  /** All pages of a range, before any is freed. */
  ghost function AllKernel(lo: int, hi: int): (owner: Owners)
    ensures forall p :: p in owner <==> lo <= p < hi
    ensures forall p | p in owner :: owner[p] == Kernel
    decreases hi - lo
  {
    if lo >= hi then map[] else AllKernel(lo, hi - 1)[hi - 1 := Kernel]
  }

  /** What is not mapped is zero. */
  lemma UnmappedIsZero(mem: Mem, owner: Owners, root: int, v: int)
    requires TreesOk(mem, owner, -1, 0) && IsRoot(owner, root) && 0 <= v < MAXVPN && !Mapping(mem, root, v).v
    ensures Mapping(mem, root, v) == ZERO
  {
    FindIsLabelled(mem, owner, -1, 0, root, v, 2);
    var t := Find(mem, root, v, 2);
    if t != -1 { assert EntryOk(mem, owner, t, v % 512); }
  }

  /** A user page belongs to one virtual page: the one that maps it. */
  lemma UserPageIsMapped(mem: Mem, owner: Owners, y: int)
    requires TreesOk(mem, owner, -1, 0) && y in owner && owner[y].Node? && owner[y].depth == 3
    ensures var n := owner[y];
            0 <= n.prefix < TRAPFRAME && Mapping(mem, n.root, n.prefix).v && Mapping(mem, n.root, n.prefix).ppn == y
  {
    var n := owner[y];
    assert Placed(mem, owner, y);
    MappingAt(mem, owner, n.parent, n.root, n.prefix);
  }

  /** A mapped virtual page below TRAPFRAME has a page of its own. */
  lemma MappedIsOwned(mem: Mem, owner: Owners, root: int, v: int)
    requires TreesOk(mem, owner, -1, 0) && IsRoot(owner, root) && 0 <= v < TRAPFRAME && Mapping(mem, root, v).v
    ensures IsNode(owner, Mapping(mem, root, v).ppn, root, 3, v) && Mapping(mem, root, v).ppn > 0
  {
    FindIsLabelled(mem, owner, -1, 0, root, v, 2);
    PreStep(v, 2);
    assert EntryOk(mem, owner, Find(mem, root, v, 2), v % 512);
  }

  /** The physical pages behind virtual pages [0, n). */
  ghost function Backing(mem: Mem, root: int, n: nat): (s: set<int>)
    requires n <= MAXVPN
    ensures forall y | y in s :: exists w :: 0 <= w < n && Mapping(mem, root, w).ppn == y
  {
    if n == 0 then {} else Backing(mem, root, n - 1) + {Mapping(mem, root, n - 1).ppn}
  }

  lemma BackingNew(mem: Mem, owner: Owners, root: int, n: nat)
    requires TreesOk(mem, owner, -1, 0) && IsRoot(owner, root) && n < TRAPFRAME && forall w | 0 <= w <= n :: Mapping(mem, root, w).v
    ensures Mapping(mem, root, n).ppn in owner && Mapping(mem, root, n).ppn !in Backing(mem, root, n)
  {
    hide TreesOk, Mapping;
    MappedIsOwned(mem, owner, root, n);
    forall w | 0 <= w < n ensures Mapping(mem, root, w).ppn != Mapping(mem, root, n).ppn { MappedIsOwned(mem, owner, root, w); }
  }

  lemma {:induction false} BackingSize(mem: Mem, owner: Owners, root: int, n: nat)
    requires TreesOk(mem, owner, -1, 0) && IsRoot(owner, root) && n <= TRAPFRAME && forall w | 0 <= w < n :: Mapping(mem, root, w).v
    ensures |Backing(mem, root, n)| == n && Backing(mem, root, n) <= owner.Keys
  {
    hide TreesOk, Mapping, IsRoot;
    if n > 0 {
      BackingSize(mem, owner, root, n - 1);
      BackingNew(mem, owner, root, n - 1);
      assert Backing(mem, root, n) == Backing(mem, root, n - 1) + {Mapping(mem, root, n - 1).ppn};
    }
  }

  /** User memory without holes is no larger than physical memory, and so ends far below the trapframe. */
  lemma MemoryFits(mem: Mem, owner: Owners, root: int, n: nat)
    requires TreesOk(mem, owner, -1, 0) && IsRoot(owner, root) && n <= TRAPFRAME && forall w | 0 <= w < n :: Mapping(mem, root, w).v
    ensures n < PHYSTOP
  {
    BackingSize(mem, owner, root, n);
    hide Mapping;
    var all := Range(1, PHYSTOP - 1);
    SubsetSize(Backing(mem, root, n), all);
  }

  // ---------------------------------------------------------------- effects of whole calls

  predicate UserPage(o: Owner, r: int, lo: int, hi: int) {
    BelongsTo(o, r) && o.depth == 3 && lo <= o.prefix < hi
  }

  /** The user pages of r for virtual pages [lo, hi) are free now; nothing else changed hands. */
  ghost predicate Released(owner: Owners, owner': Owners, r: int, lo: int, hi: int) {
    && owner'.Keys == owner.Keys
    && forall y | y in owner :: owner'[y] == if UserPage(owner[y], r, lo, hi) then Free else owner[y]
  }

  lemma ReleasedStep(o0: Owners, o1: Owners, mem: Mem, r: int, lo: int, v: int, page: int)
    requires Released(o0, o1, r, lo, v) && lo <= v
    requires TreesOk(mem, o1, -1, 0) && IsNode(o1, page, r, 3, v) && 0 <= v < MAXVPN && Mapping(mem, r, v).ppn == page
    ensures Released(o0, o1[page := Free], r, lo, v + 1)
  {
    forall y | y in o0 ensures o1[page := Free][y] == if UserPage(o0[y], r, lo, v + 1) then Free else o0[y] {
      if y != page && UserPage(o1[y], r, v, v + 1) { UserPageIsMapped(mem, o1, y); }
    }
  }

  lemma ReleasedExchanged(owner: Owners, owner': Owners, r: int, lo: int, hi: int)
    requires Released(owner, owner', r, lo, hi)
    ensures Exchanged(owner, owner', r)
  {
  }

  /** A free page taken by the kernel, then mapped into r. */
  lemma GrownByMap(o0: Owners, o1: Owners, o2: Owners, r: int, page: int, v: int)
    requires page in o0 && o0[page] == Free && o1 == o0[page := Kernel]
    requires Grown(o1, o2[page := Kernel], r) && IsNode(o2, page, r, 3, v)
    ensures Grown(o0, o2, r)
  {
    assert o2.Keys == o2[page := Kernel].Keys;
  }

  /** ... or not mapped, because memory ran out, and freed again. */
  lemma GrownGiveBack(o0: Owners, o1: Owners, o2: Owners, r: int, page: int)
    requires page in o0 && o0[page] == Free && o1 == o0[page := Kernel] && Grown(o1, o2, r)
    ensures Grown(o0, o2[page := Free], r)
  {
  }

  lemma GrownTrans(o0: Owners, o1: Owners, o2: Owners, r: int)
    requires Grown(o0, o1, r) && Grown(o1, o2, r)
    ensures Grown(o0, o2, r)
  {
  }

  lemma GrownFacts(o0: Owners, o1: Owners, r: int)
    requires Grown(o0, o1, r)
    ensures Exchanged(o0, o1, r)
    ensures forall root | IsRoot(o0, root) :: IsRoot(o1, root)
    ensures forall y | y in o0 && HoldsData(o0[y]) :: y in o1 && o1[y] == o0[y]
  {
  }

  /** Undoing growth: user pages mapped since are released again. */
  lemma GrownUndone(m0: Mem, o0: Owners, o1: Owners, o2: Owners, r: int, lo: int, hi: int)
    requires TreesOk(m0, o0, -1, 0) && 0 <= lo <= hi <= MAXVPN && forall w | lo <= w < hi :: !Mapping(m0, r, w).v
    requires Grown(o0, o1, r) && Released(o1, o2, r, lo, hi)
    ensures Grown(o0, o2, r)
  {
    forall y | y in o0 && o0[y] != Free ensures o2[y] == o0[y] {
      if UserPage(o0[y], r, lo, hi) { UserPageIsMapped(m0, o0, y); }
    }
  }

  lemma SameDataTrans(m0: Mem, m1: Mem, m2: Mem, o0: Owners, o1: Owners)
    requires SameData(m0, m1, o0) && SameData(m1, m2, o1)
    requires forall y | y in o0 && HoldsData(o0[y]) :: y in o1 && o1[y] == o0[y]
    ensures SameData(m0, m2, o0)
  {
  }

  /** After mapping k pages from `page` at v: those below TRAPFRAME are r's user pages, tables came from the free list. */
  ghost predicate Assigned(owner: Owners, owner': Owners, r: int, v: int, page: int, k: int) {
    && owner'.Keys == owner.Keys
    && forall y | y in owner ::
         if page <= y < page + k && v + (y - page) < TRAPFRAME then IsNode(owner', y, r, 3, v + (y - page))
         else if owner[y] == Free then owner'[y] == Free || (BelongsTo(owner'[y], r) && owner'[y].depth > 0)
         else owner'[y] == owner[y]
  }

  lemma AssignedStep(o0: Owners, o1: Owners, o2: Owners, r: int, v: int, page: int, k: int)
    requires Assigned(o0, o1, r, v, page, k) && k >= 0
    requires v + k < TRAPFRAME ==> page + k in o0 && o0[page + k] == Kernel
    requires if v + k < TRAPFRAME then IsNode(o2, page + k, r, 3, v + k) && Grown(o1, o2[page + k := Kernel], r)
             else Grown(o1, o2, r)
    ensures Assigned(o0, o2, r, v, page, k + 1)
  {
    if v + k < TRAPFRAME { assert o2.Keys == o2[page + k := Kernel].Keys; }
  }

  /** A failed round may have added tables, which changes nothing that matters. */
  lemma AssignedGrown(o0: Owners, o1: Owners, o2: Owners, r: int, v: int, page: int, k: int)
    requires Assigned(o0, o1, r, v, page, k) && Grown(o1, o2, r)
    ensures Assigned(o0, o2, r, v, page, k)
  {
  }

  lemma AssignedKeepsData(m0: Mem, m1: Mem, m2: Mem, o0: Owners, o1: Owners, r: int, v: int, page: int, k: int)
    requires Assigned(o0, o1, r, v, page, k) && SameData(m0, m1, o0) && SameData(m1, m2, o1)
    requires forall y | page <= y < page + k && v + (y - page) < TRAPFRAME :: y in o0 && o0[y] == Kernel
    ensures SameData(m0, m2, o0)
  {
    forall y | y in m0 && y in o0 && HoldsData(o0[y]) ensures y in m2 && m2[y] == m0[y] {
      assert HoldsData(o1[y]);
    }
  }

  lemma AssignedRoots(o0: Owners, o1: Owners, r: int, v: int, page: int, k: int)
    requires Assigned(o0, o1, r, v, page, k)
    requires forall y | page <= y < page + k && v + (y - page) < TRAPFRAME :: y in o0 && o0[y] == Kernel
    ensures forall root | IsRoot(o0, root) :: IsRoot(o1, root)
  {
  }

  /** The n pages from `page` that go below TRAPFRAME, when mapped at v, are the kernel's. */
  ghost predicate KernelPages(mem: Mem, owner: Owners, v: int, page: int, n: int) {
    forall y | page <= y < page + n && v + (y - page) < TRAPFRAME :: y in owner && owner[y] == Kernel && y in mem
  }

  lemma FewerKernelPages(mem: Mem, owner: Owners, v: int, page: int, k: int, n: int)
    requires KernelPages(mem, owner, v, page, n) && k <= n
    ensures KernelPages(mem, owner, v, page, k)
  {
  }

  /** Exactly virtual pages [v, v + k) of `root` were mapped since (m0, o0), to the pages from e.ppn. */
  ghost predicate MapsSoFar(m0: Mem, o0: Owners, m: Mem, o: Owners, root: int, v: int, e: Pte, k: int)
    requires 0 <= v <= v + k <= MAXVPN
  {
    && SameData(m0, m, o0) && SameMaps(m0, m, o0, root, v, v + k) && Assigned(o0, o, root, v, e.ppn, k)
    && forall w | v <= w < v + k :: !Mapping(m0, root, w).v && Mapping(m, root, w) == e.(ppn := e.ppn + (w - v))
  }

  lemma MapsNothing(m: Mem, o: Owners, root: int, v: int, e: Pte)
    requires 0 <= v <= MAXVPN
    ensures MapsSoFar(m, o, m, o, root, v, e, 0)
  {
  }

  /** What the next round of mappages() finds. */
  lemma MapsNext(m0: Mem, o0: Owners, m1: Mem, o1: Owners, root: int, v: int, e: Pte, k: int)
    requires 0 <= v <= v + k < MAXVPN && MapsSoFar(m0, o0, m1, o1, root, v, e, k) && IsRoot(o0, root)
    requires KernelPages(m0, o0, v, e.ppn, k + 1)
    ensures IsRoot(o1, root) && Mapping(m1, root, v + k) == Mapping(m0, root, v + k)
    ensures v + k < TRAPFRAME ==> e.ppn + k in o1 && o1[e.ppn + k] == Kernel && e.ppn + k in m1
  {
    hide Mapping;
    assert v + k < TRAPFRAME ==> e.ppn + k in o0 && o0[e.ppn + k] == Kernel && e.ppn + k in m0;
  }

  lemma MapsNoMore(m0: Mem, o0: Owners, m1: Mem, o1: Owners, m2: Mem, o2: Owners, root: int, v: int, e: Pte, k: int)
    requires 0 <= v <= v + k < MAXVPN && MapsSoFar(m0, o0, m1, o1, root, v, e, k) && KernelPages(m0, o0, v, e.ppn, k + 1)
    requires Grown(o1, o2, root) && SameMaps(m1, m2, o1, 0, 0, 0) && SameData(m1, m2, o1) && IsRoot(o0, root)
    ensures MapsSoFar(m0, o0, m2, o2, root, v, e, k)
  {
    hide Mapping, Assigned, SameData, Grown, IsRoot;
    AssignedRoots(o0, o1, root, v, e.ppn, k);
    AssignedKeepsData(m0, m1, m2, o0, o1, root, v, e.ppn, k);
    AssignedGrown(o0, o1, o2, root, v, e.ppn, k);
    SameMapsTrans(m0, m1, m2, o0, o1, root, v, v + k, v + k);
  }

  lemma MapsOneMore(m0: Mem, o0: Owners, m1: Mem, o1: Owners, m2: Mem, o2: Owners, root: int, v: int, e: Pte, k: int)
    requires 0 <= v <= v + k < MAXVPN && 0 <= k && MapsSoFar(m0, o0, m1, o1, root, v, e, k) && IsRoot(o0, root)
    requires KernelPages(m0, o0, v, e.ppn, k + 1) && !Mapping(m0, root, v + k).v && Mapping(m2, root, v + k) == e.(ppn := e.ppn + k)
    requires SameMaps(m1, m2, o1, root, v + k, v + k + 1) && SameData(m1, m2, o1)
    requires if v + k < TRAPFRAME then IsNode(o2, e.ppn + k, root, 3, v + k) && Grown(o1, o2[e.ppn + k := Kernel], root)
             else Grown(o1, o2, root)
    ensures MapsSoFar(m0, o0, m2, o2, root, v, e, k + 1)
  {
    hide Mapping, Assigned, SameData, Grown, IsRoot;
    AssignedRoots(o0, o1, root, v, e.ppn, k);
    AssignedKeepsData(m0, m1, m2, o0, o1, root, v, e.ppn, k);
    AssignedStep(o0, o1, o2, root, v, e.ppn, k);
    SameMapsTrans(m0, m1, m2, o0, o1, root, v, v + k, v + k + 1);
  }

  /** v is mapped in `root` with the given flags, to a page of its own with the given contents. */
  ghost predicate Holds(mem: Mem, owner: Owners, root: int, v: int, flags: Pte, content: seq<Pte>)
    requires 0 <= v < MAXVPN
  {
    var e := Mapping(mem, root, v);
    e == flags.(ppn := e.ppn) && IsNode(owner, e.ppn, root, 3, v) && e.ppn in mem && mem[e.ppn] == content
  }

  lemma HoldsKept(m1: Mem, o1: Owners, m2: Mem, o2: Owners, root: int, w: int, flags: Pte, content: seq<Pte>, lo: int, hi: int)
    requires 0 <= w < MAXVPN && Holds(m1, o1, root, w, flags, content) && IsRoot(o1, root)
    requires Grown(o1, o2, root) && SameData(m1, m2, o1) && SameMaps(m1, m2, o1, root, lo, hi) && w < lo
    ensures Holds(m2, o2, root, w, flags, content)
  {
  }

  // ---------------------------------------------------------------- one more user page

  lemma NothingFilled(m: Mem, o: Owners, r: int, v: int)
    ensures SameMaps(m, m, o, r, v, v) && SameData(m, m, o)
  {
  }

  /** A free page was taken by the kernel and filled. */
  lemma PageFilled(m0: Mem, o0: Owners, m1: Mem, m2: Mem, r: int, v: int, page: int, content: seq<Pte>)
    requires page in o0 && o0[page] == Free && m2 == m1[page := content] && IsRoot(o0, r) && 0 <= v < MAXVPN
    requires SameMaps(m0, m1, o0[page := Kernel], 0, 0, 0) && SameData(m0, m1, o0)
    requires SameMaps(m1, m2, o0[page := Kernel], 0, 0, 0)
    ensures SameMaps(m0, m2, o0, r, v, v) && SameData(m0, m2, o0) && IsRoot(o0[page := Kernel], r) && page in m2
    ensures Mapping(m2, r, v) == Mapping(m0, r, v)
  {
    hide Mapping;
    assert forall root | IsRoot(o0, root) :: IsRoot(o0[page := Kernel], root);
  }

  /** ... and then mapped at v. */
  lemma PageMapped(m0: Mem, o0: Owners, m2: Mem, o1: Owners, m3: Mem, o3: Owners, r: int, v: int, page: int, flags: Pte, content: seq<Pte>)
    requires page in o0 && o0[page] == Free && o1 == o0[page := Kernel] && page in m2 && m2[page] == content && 0 <= v < TRAPFRAME
    requires SameMaps(m0, m2, o0, r, v, v) && SameData(m0, m2, o0)
    requires SameMaps(m2, m3, o1, r, v, v + 1) && SameData(m2, m3, o1) && Mapping(m3, r, v) == flags.(ppn := page)
    requires IsNode(o3, page, r, 3, v) && Grown(o1, o3[page := Kernel], r)
    ensures Grown(o0, o3, r) && SameData(m0, m3, o0) && SameMaps(m0, m3, o0, r, v, v + 1) && Holds(m3, o3, r, v, flags, content)
  {
    hide Mapping;
    assert forall root | IsRoot(o0, root) :: IsRoot(o1, root);
    GrownByMap(o0, o1, o3, r, page, v);
    hide Grown;
    SameMapsTrans(m0, m2, m3, o0, o1, r, v, v, v + 1);
    SameDataTrans(m0, m2, m3, o0, o1);
  }

  /** ... or not, because memory ran out, and given back. */
  lemma PageNotMapped(m0: Mem, o0: Owners, m2: Mem, o1: Owners, m3: Mem, o3: Owners, r: int, v: int, page: int, junk: seq<Pte>)
    requires page in o0 && o0[page] == Free && o1 == o0[page := Kernel]
    requires SameMaps(m0, m2, o0, r, v, v) && SameData(m0, m2, o0)
    requires SameMaps(m2, m3, o1, 0, 0, 0) && SameData(m2, m3, o1) && Grown(o1, o3, r)
    ensures page in o3 && o3[page] == Kernel && Grown(o0, o3[page := Free], r) && SameData(m0, m3[page := junk], o0)
    ensures SameMaps(m3, m3[page := junk], o3, 0, 0, 0) ==> SameMaps(m0, m3[page := junk], o0, r, v, v)
  {
    hide Mapping;
    GrownFacts(o1, o3, r);
    GrownGiveBack(o0, o1, o3, r, page);
    hide Grown;
    SameDataTrans(m0, m2, m3, o0, o1);
    assert forall root | IsRoot(o0, root) :: IsRoot(o1, root) && IsRoot(o3, root);
  }

  /** The state as it was, up to tables added to r. */
  ghost predicate Unharmed(m0: Mem, o0: Owners, m: Mem, o: Owners, r: int, lo: int, hi: int) {
    Grown(o0, o, r) && SameData(m0, m, o0) && SameMaps(m0, m, o0, r, lo, hi) && forall root | IsRoot(o0, root) :: IsRoot(o, root)
  }

  lemma UnharmedStep(m0: Mem, o0: Owners, m1: Mem, o1: Owners, m2: Mem, o2: Owners, r: int, lo: int, a: int, b: int)
    requires Unharmed(m0, o0, m1, o1, r, lo, a) && lo <= a <= b
    requires Grown(o1, o2, r) && SameData(m1, m2, o1) && SameMaps(m1, m2, o1, r, a, b)
    ensures Unharmed(m0, o0, m2, o2, r, lo, b)
  {
    GrownFacts(o0, o1, r);
    GrownTrans(o0, o1, o2, r);
    GrownFacts(o0, o2, r);
    SameDataTrans(m0, m1, m2, o0, o1);
    SameMapsTrans(m0, m1, m2, o0, o1, r, lo, a, b);
  }

  /** Unmapping [lo, hi), which was unmapped to begin with, restores every mapping. */
  lemma UnharmedUndone(m0: Mem, o0: Owners, m1: Mem, o1: Owners, m2: Mem, o2: Owners, r: int, lo: int, hi: int)
    requires TreesOk(m0, o0, -1, 0) && IsRoot(o0, r) && 0 <= lo <= hi <= MAXVPN && forall w | lo <= w < hi :: !Mapping(m0, r, w).v
    requires Unharmed(m0, o0, m1, o1, r, lo, hi)
    requires Released(o1, o2, r, lo, hi) && SameData(m1, m2, o2) && SameMaps(m1, m2, o1, r, lo, hi)
    requires forall w | lo <= w < hi :: Mapping(m2, r, w) == ZERO
    ensures Unharmed(m0, o0, m2, o2, r, lo, lo)
  {
    GrownUndone(m0, o0, o1, o2, r, lo, hi);
    GrownFacts(o0, o2, r);
    forall root, v | IsRoot(o0, root) && 0 <= v < MAXVPN ensures Mapping(m2, root, v) == Mapping(m0, root, v) {
      if root == r && lo <= v < hi { UnmappedIsZero(m0, o0, root, v); } else { assert IsRoot(o1, root); }
    }
    forall y | y in m0 && y in o0 && HoldsData(o0[y]) ensures y in m2 && m2[y] == m0[y] {
      assert o2[y] == o0[y];
    }
  }

  lemma UnharmedRefl(m: Mem, o: Owners, r: int, lo: int)
    ensures Unharmed(m, o, m, o, r, lo, lo)
  {
  }

  lemma UnharmedFacts(m0: Mem, o0: Owners, m: Mem, o: Owners, r: int, lo: int, v: int)
    requires Unharmed(m0, o0, m, o, r, lo, v) && IsRoot(o0, r) && 0 <= v
    ensures IsRoot(o, r)
    ensures v < MAXVPN ==> Mapping(m, r, v) == Mapping(m0, r, v)
  {
  }

  /** Pages held before stay held while later ones are added. */
  lemma HeldStay(m1: Mem, o1: Owners, m2: Mem, o2: Owners, root: int, lo: int, v: int, hi: int, flags: Pte, content: seq<Pte>)
    requires 0 <= lo <= v <= MAXVPN && IsRoot(o1, root)
    requires forall w | lo <= w < v :: Holds(m1, o1, root, w, flags, content)
    requires Grown(o1, o2, root) && SameData(m1, m2, o1) && SameMaps(m1, m2, o1, root, v, hi)
    ensures forall w | lo <= w < v :: Holds(m2, o2, root, w, flags, content)
  {
    forall w | lo <= w < v ensures Holds(m2, o2, root, w, flags, content) {
      HoldsKept(m1, o1, m2, o2, root, w, flags, content, v, hi);
    }
  }

  /** dst maps v with src's flags, to a page of its own with the contents src's page had. */
  ghost predicate Copied(m0: Mem, mem: Mem, owner: Owners, src: int, dst: int, v: int)
    requires 0 <= v < MAXVPN
  {
    var e := Mapping(m0, src, v);
    e.ppn in m0 && Holds(mem, owner, dst, v, e, m0[e.ppn])
  }

  lemma CopiedStay(m0: Mem, m1: Mem, o1: Owners, m2: Mem, o2: Owners, src: int, dst: int, v: int, hi: int)
    requires 0 <= v <= MAXVPN && IsRoot(o1, dst)
    requires forall w | 0 <= w < v :: Copied(m0, m1, o1, src, dst, w)
    requires Grown(o1, o2, dst) && SameData(m1, m2, o1) && SameMaps(m1, m2, o1, dst, v, hi)
    ensures forall w | 0 <= w < v :: Copied(m0, m2, o2, src, dst, w)
  {
    forall w | 0 <= w < v ensures Copied(m0, m2, o2, src, dst, w) {
      assert Copied(m0, m1, o1, src, dst, w);
      var e := Mapping(m0, src, w);
      HoldsKept(m1, o1, m2, o2, dst, w, e, m0[e.ppn], v, hi);
    }
  }

  lemma CopiedNow(m0: Mem, mem: Mem, owner: Owners, src: int, dst: int, v: int, e: Pte)
    requires 0 <= v < MAXVPN && e == Mapping(m0, src, v) && e.ppn in m0 && Holds(mem, owner, dst, v, e, m0[e.ppn])
    ensures Copied(m0, mem, owner, src, dst, v)
  {
  }

  lemma CopiedMapped(m0: Mem, mem: Mem, owner: Owners, src: int, dst: int, v: int)
    requires 0 <= v <= MAXVPN
    requires forall w | 0 <= w < v :: Copied(m0, mem, owner, src, dst, w) && Mapping(m0, src, w).v
    ensures forall w | 0 <= w < v :: Mapping(mem, dst, w).v
  {
    forall w | 0 <= w < v ensures Mapping(mem, dst, w).v { assert Copied(m0, mem, owner, src, dst, w); }
  }

  /** While dst grows, the source is as it was, with its contents. */
  lemma UnharmedSource(m0: Mem, o0: Owners, m: Mem, o: Owners, src: int, dst: int, v: int)
    requires TreesOk(m0, o0, -1, 0) && Unharmed(m0, o0, m, o, dst, 0, v) && IsRoot(o0, src) && src != dst && 0 <= v < TRAPFRAME
    requires Mapping(m0, src, v).v
    ensures IsRoot(o, src) && Mapping(m, src, v) == Mapping(m0, src, v)
    ensures Mapping(m0, src, v).ppn in m0 && Mapping(m0, src, v).ppn in m && m[Mapping(m0, src, v).ppn] == m0[Mapping(m0, src, v).ppn]
  {
    FindIsLabelled(m0, o0, -1, 0, src, v, 2);
    var t := Find(m0, src, v, 2);
    PreStep(v, 2);
    assert EntryOk(m0, o0, t, v % 512);
    assert Placed(m0, o0, m0[t][v % 512].ppn);
  }

  // ---------------------------------------------------------------- freeing a tree

  ghost predicate NoLeaves(mem: Mem, owner: Owners, r: int) {
    forall t, i | BottomTable(mem, owner, t) && owner[t].root == r && 0 <= i < 512 :: !mem[t][i].v
  }

  /** An address space that maps nothing has no valid leaf entry. */
  lemma NothingMapped(mem: Mem, owner: Owners, r: int)
    requires TreesOk(mem, owner, -1, 0) && forall v | 0 <= v < MAXVPN :: !Mapping(mem, r, v).v
    ensures NoLeaves(mem, owner, r)
  {
    forall t, i | BottomTable(mem, owner, t) && owner[t].root == r && 0 <= i < 512 ensures !mem[t][i].v {
      var v := owner[t].prefix * 512 + i;
      BottomPrefix(mem, owner, t);
      MappingAt(mem, owner, t, r, v);
    }
  }

  lemma BottomPrefix(mem: Mem, owner: Owners, t: int)
    requires TreesOk(mem, owner, -1, 0) && BottomTable(mem, owner, t)
    ensures 0 <= owner[t].prefix && owner[t].prefix * 512 + 511 < MAXVPN
  {
    assert Placed(mem, owner, t);
    assert Placed(mem, owner, owner[t].parent);
    assert Placed(mem, owner, owner[owner[t].parent].parent);
  }

  /** Nodes of r from depth d on may have been freed; nothing else changed hands. */
  ghost predicate Pruned(owner: Owners, owner': Owners, r: int, d: int) {
    && owner'.Keys == owner.Keys
    && forall y | y in owner :: owner'[y] == owner[y] || (Below(owner[y], r, d) && owner'[y] == Free)
  }

  predicate Below(o: Owner, r: int, d: int) {
    BelongsTo(o, r) && o.depth >= d
  }

  /** Pages in use outside the pruned part keep their contents, except page p. */
  ghost predicate Untouched(mem: Mem, mem': Mem, owner: Owners, r: int, d: int, p: int) {
    forall y | y in mem && y in owner && owner[y] != Free && !Below(owner[y], r, d) && y != p :: y in mem' && mem'[y] == mem[y]
  }

  lemma {:induction false} UntouchedFinds(m0: Mem, m: Mem, o0: Owners, r: int, root: int, v: int, d: int)
    requires TreesOk(m0, o0, -1, 0) && Untouched(m0, m, o0, r, 0, -1) && IsRoot(o0, root) && root != r
    requires 0 <= v < MAXVPN && 0 <= d <= 2
    ensures Find(m, root, v, d) == Find(m0, root, v, d)
  {
    if d > 0 {
      UntouchedFinds(m0, m, o0, r, root, v, d - 1);
      FindIsLabelled(m0, o0, -1, 0, root, v, d - 1);
    }
  }

  lemma UntouchedSameMaps(m0: Mem, m: Mem, o0: Owners, r: int)
    requires TreesOk(m0, o0, -1, 0) && Untouched(m0, m, o0, r, 0, -1)
    ensures SameMaps(m0, m, o0, r, 0, MAXVPN)
  {
    forall root, v | IsRoot(o0, root) && 0 <= v < MAXVPN && root != r ensures Mapping(m, root, v) == Mapping(m0, root, v) {
      UntouchedFinds(m0, m, o0, r, root, v, 2);
      FindIsLabelled(m0, o0, -1, 0, root, v, 2);
    }
  }

  /** Table p and all below it are free; the entry that pointed to p is a loose end. */
  ghost predicate Felled(m0: Mem, o0: Owners, mem: Mem, owner: Owners, p: int)
    requires p in o0 && o0[p].Node?
  {
    var n := o0[p];
    && TreesOk(mem, owner, if n.depth == 0 then -1 else n.parent, n.prefix % 512)
    && (n.depth > 0 ==> NoChild(owner, n.parent, n.prefix % 512))
    && NoLeaves(mem, owner, n.root) && p in owner && owner[p] == Free
    && Pruned(o0, owner, n.root, n.depth) && Untouched(m0, mem, o0, n.root, n.depth, -1)
    && (n.depth == 0 ==> forall y | y in owner :: !BelongsTo(owner[y], n.root))
  }

  /** freewalk() has cleared the first i entries of table p, and freed what hung there. */
  ghost predicate Felling(m0: Mem, o0: Owners, mem: Mem, owner: Owners, p: int, i: int)
    requires p in o0 && o0[p].Node?
  {
    var n := o0[p];
    && TreesOk(mem, owner, -1, 0) && p in owner && owner[p] == n && n.depth <= 2 && Table(mem, p) && NoLeaves(mem, owner, n.root)
    && Pruned(o0, owner, n.root, n.depth + 1) && Untouched(m0, mem, o0, n.root, n.depth + 1, p)
    && forall j | 0 <= j < i && j < 512 :: !mem[p][j].v
  }

  lemma FellingStarts(mem: Mem, owner: Owners, p: int)
    requires TreesOk(mem, owner, -1, 0) && IsTable(owner, p) && NoLeaves(mem, owner, owner[p].root)
    ensures Felling(mem, owner, mem, owner, p, 0)
  {
    assert Placed(mem, owner, p);
  }

  lemma FellingSkips(m0: Mem, o0: Owners, mem: Mem, owner: Owners, p: int, i: int)
    requires p in o0 && o0[p].Node? && Felling(m0, o0, mem, owner, p, i) && 0 <= i < 512 && !mem[p][i].v
    ensures Felling(m0, o0, mem, owner, p, i + 1)
  {
  }

  /** A valid entry of a table being felled points to a child table, never to a leaf. */
  lemma FellingChild(m0: Mem, o0: Owners, mem: Mem, owner: Owners, p: int, i: int)
    requires p in o0 && o0[p].Node? && Felling(m0, o0, mem, owner, p, i) && 0 <= i < 512 && mem[p][i].v
    ensures var n, c := o0[p], mem[p][i].ppn;
            !mem[p][i].Leaf() && n.depth < 2 && c in owner && owner[c] == Node(n.root, n.depth + 1, n.prefix * 512 + i, p)
            && NoLeaves(mem, owner, n.root)
  {
    assert EntryOk(mem, owner, p, i);
    assert o0[p].depth < 2 || BottomTable(mem, owner, p);
  }

  lemma FellingStep(m0: Mem, o0: Owners, m1: Mem, o1: Owners, mem: Mem, owner: Owners, p: int, i: int)
    requires p in o0 && o0[p].Node? && Felling(m0, o0, m1, o1, p, i) && 0 <= i < 512
    requires m1[p][i].ppn in o1 && o1[m1[p][i].ppn] == Node(o0[p].root, o0[p].depth + 1, o0[p].prefix * 512 + i, p)
    requires Felled(m1, o1, mem, owner, m1[p][i].ppn)
    ensures Table(mem, p) && Felling(m0, o0, SetEntry(mem, p, i, ZERO), owner, p, i + 1)
  {
    var r, d := o0[p].root, o0[p].depth;
    assert mem[p] == m1[p];
    assert (o0[p].prefix * 512 + i) % 512 == i;
    ClearOk(mem, owner, p, i);
    var m2 := SetEntry(mem, p, i, ZERO);
    assert Pruned(o0, owner, r, d + 1) by { hide TreesOk, NoLeaves, Untouched; }
    assert Untouched(m0, m2, o0, r, d + 1, p) by { hide TreesOk, NoLeaves, NoChild; }
    forall t, j | BottomTable(m2, owner, t) && owner[t].root == r && 0 <= j < 512 ensures !m2[t][j].v {
      assert BottomTable(mem, owner, t);
      assert !mem[t][j].v;
    }
  }

  lemma FellingDetach(m0: Mem, o0: Owners, mem: Mem, owner: Owners, p: int, content: seq<Pte>)
    requires p in o0 && o0[p].Node? && Felling(m0, o0, mem, owner, p, 512)
    ensures var n := o0[p];
            TreesOk(mem, owner[p := Kernel], if n.depth == 0 then -1 else n.parent, n.prefix % 512)
    ensures TreesOk(mem[p := content], owner[p := Free], if o0[p].depth == 0 then -1 else o0[p].parent, o0[p].prefix % 512) ==>
              Felled(m0, o0, mem[p := content], owner[p := Free], p)
  {
    var n := o0[p];
    EmptyTableIsLast(mem, owner, p);
    DetachOk(mem, owner, p);
    if n.depth == 0 {
      assert Placed(mem, owner, p);
      EmptyRootIsAll(mem, owner, p);
    }
    var m2, o2 := mem[p := content], owner[p := Free];
    if n.depth > 0 { assert NoChild(o2, n.parent, n.prefix % 512); }
    assert Pruned(o0, o2, n.root, n.depth);
    assert Untouched(m0, m2, o0, n.root, n.depth, -1);
    forall t, j | BottomTable(m2, o2, t) && o2[t].root == n.root && 0 <= j < 512 ensures !m2[t][j].v {
      assert BottomTable(mem, owner, t);
    }
  }

  // ---------------------------------------------------------------- whole address spaces

  /** A page that the kernel holds becomes an empty root. */
  lemma RootOk(mem: Mem, owner: Owners, p: int)
    requires TreesOk(mem, owner, -1, 0) && p in owner && owner[p] == Kernel
    ensures TreesOk(mem[p := EmptyTable()], owner[p := Node(p, 0, 0, -1)], -1, 0)
  {
    var mem', owner' := mem[p := EmptyTable()], owner[p := Node(p, 0, 0, -1)];
    forall y | y in owner' && owner'[y].Node? ensures Placed(mem', owner', y) {
      if y != p { assert Placed(mem, owner, y); }
    }
    forall y, j | IsTable(owner', y) && 0 <= j < 512 ensures EntryOk(mem', owner', y, j) {
      if y != p { assert EntryOk(mem, owner, y, j); }
    }
  }

  lemma EmptyRootMaps(mem: Mem, p: int, v: int)
    requires p in mem && mem[p] == EmptyTable() && 0 <= v < MAXVPN
    ensures Mapping(mem, p, v) == ZERO
  {
    assert Find(mem, p, v, 0) == p;
    PreStep(v, 0);
    assert Find(mem, p, v, 1) == -1;
    assert Find(mem, p, v, 2) == -1;
  }

  /** Address space r is made of pages that were free; all else is as it was. */
  ghost predicate Founded(owner: Owners, owner': Owners, r: int) {
    && owner'.Keys == owner.Keys && r in owner && owner[r] == Free && IsRoot(owner', r)
    && (forall y | y in owner && owner[y] == Free :: owner'[y] == Free || BelongsTo(owner'[y], r))
    && (forall y | y in owner && owner[y] != Free :: owner'[y] == owner[y])
  }

  /** Exactly the pages of address space r are free now. */
  ghost predicate Gone(owner: Owners, owner': Owners, r: int) {
    && owner'.Keys == owner.Keys
    && forall y | y in owner :: owner'[y] == if BelongsTo(owner[y], r) then Free else owner[y]
  }

  lemma FoundedGrown(o0: Owners, o1: Owners, o2: Owners, r: int)
    requires Founded(o0, o1, r) && Grown(o1, o2, r)
    ensures Founded(o0, o2, r)
  {
  }

  /** No page of o0 belongs to an address space whose root is a free page. */
  lemma FreeRootOwnsNothing(mem: Mem, owner: Owners, r: int)
    requires TreesOk(mem, owner, -1, 0) && r in owner && owner[r] == Free
    ensures forall y | y in owner :: !BelongsTo(owner[y], r)
  {
    forall y | y in owner ensures !BelongsTo(owner[y], r) {
      if BelongsTo(owner[y], r) { RootExists(mem, owner, y); }
    }
  }

  lemma {:induction false} RootExists(mem: Mem, owner: Owners, y: int)
    requires TreesOk(mem, owner, -1, 0) && y in owner && owner[y].Node?
    ensures IsRoot(owner, owner[y].root)
    decreases owner[y].depth
  {
    assert Placed(mem, owner, y);
    if owner[y].depth > 0 { RootExists(mem, owner, owner[y].parent); }
  }

  /** Destroying an address space gives back exactly the pages that making it took. */
  lemma FoundedGone(mem: Mem, o0: Owners, o1: Owners, o2: Owners, r: int)
    requires TreesOk(mem, o0, -1, 0) && Founded(o0, o1, r) && Gone(o1, o2, r)
    ensures o2 == o0
  {
    FreeRootOwnsNothing(mem, o0, r);
    forall y | y in o0 ensures o2[y] == o0[y] { }
  }

  lemma GoneAfter(o0: Owners, o1: Owners, o2: Owners, r: int, lo: int, hi: int)
    requires Released(o0, o1, r, lo, hi) && Pruned(o1, o2, r, 0) && forall y | y in o2 :: !BelongsTo(o2[y], r)
    ensures Gone(o0, o2, r)
  {
    forall y | y in o0 ensures o2[y] == if BelongsTo(o0[y], r) then Free else o0[y] {
      assert o1[y] == if UserPage(o0[y], r, lo, hi) then Free else o0[y];
    }
  }

  lemma FelledRest(m0: Mem, o0: Owners, mem: Mem, owner: Owners, r: int)
    requires TreesOk(m0, o0, -1, 0) && IsRoot(o0, r) && Felled(m0, o0, mem, owner, r)
    ensures SameMaps(m0, mem, o0, r, 0, MAXVPN) && SameData(m0, mem, owner)
  {
    UntouchedSameMaps(m0, mem, o0, r);
  }

  /** Address space r maps user memory of sz bytes, TRAPFRAME and TRAMPOLINE, and nothing else. */
  ghost predicate UserSpace(mem: Mem, owner: Owners, r: int, pages: int) {
    && IsRoot(owner, r) && 0 <= pages <= TRAPFRAME
    && forall v | 0 <= v < MAXVPN :: Mapping(mem, r, v).v <==> v < pages || v >= TRAPFRAME
  }

  /** Mapping one page at or above TRAPFRAME changes no user page. */
  lemma AssignedAbove(o0: Owners, o1: Owners, r: int, v: int, page: int, k: int)
    requires Assigned(o0, o1, r, v, page, k) && v >= TRAPFRAME
    ensures Grown(o0, o1, r)
  {
  }

  /** Since (m0, o0) only the new address space r came into being. */
  ghost predicate Born(m0: Mem, o0: Owners, mem: Mem, owner: Owners, r: int) {
    Founded(o0, owner, r) && SameMaps(m0, mem, o0, 0, 0, 0) && SameData(m0, mem, o0)
  }

  lemma BornGrows(m0: Mem, o0: Owners, m1: Mem, o1: Owners, m2: Mem, o2: Owners, r: int, lo: int, hi: int)
    requires Born(m0, o0, m1, o1, r) && Grown(o1, o2, r) && SameMaps(m1, m2, o1, r, lo, hi) && SameData(m1, m2, o1)
    ensures Born(m0, o0, m2, o2, r)
  {
    FoundedGrown(o0, o1, o2, r);
    forall root, v | IsRoot(o0, root) && 0 <= v < MAXVPN ensures Mapping(m2, root, v) == Mapping(m0, root, v) {
      assert IsRoot(o1, root) && root != r;
    }
    forall y | y in m0 && y in o0 && HoldsData(o0[y]) ensures y in m2 && m2[y] == m0[y] {
      assert HoldsData(o1[y]);
    }
  }

  /** Create and destroy: every page is owned as before, and no other address space noticed. */
  lemma BornDies(m0: Mem, o0: Owners, m1: Mem, o1: Owners, m2: Mem, o2: Owners, r: int)
    requires TreesOk(m0, o0, -1, 0) && Born(m0, o0, m1, o1, r)
    requires Gone(o1, o2, r) && SameMaps(m1, m2, o1, r, 0, MAXVPN) && SameData(m1, m2, o2)
    ensures o2 == o0 && SameMaps(m0, m2, o0, 0, 0, 0) && SameData(m0, m2, o0)
  {
    FoundedGone(m0, o0, o1, o2, r);
    forall root, v | IsRoot(o0, root) && 0 <= v < MAXVPN ensures Mapping(m2, root, v) == Mapping(m0, root, v) {
      assert IsRoot(o1, root) && root != r;
    }
  }

  lemma BornFacts(m0: Mem, o0: Owners, mem: Mem, owner: Owners, r: int)
    requires Born(m0, o0, mem, owner, r)
    ensures IsRoot(owner, r) && r in o0 && o0[r] == Free
    ensures forall y | y in o0 && o0[y] == Kernel :: y in owner && owner[y] == Kernel
    ensures forall root | IsRoot(o0, root) :: IsRoot(owner, root) && root != r
  {
  }

  lemma NothingGrown(owner: Owners, r: int)
    ensures Grown(owner, owner, r)
  {
  }

  /** Besides the new address space r, page tf was taken for its trapframe. */
  ghost predicate BornWith(m0: Mem, o0: Owners, mem: Mem, owner: Owners, r: int, tf: int) {
    && tf in o0 && o0[tf] == Free && tf in owner && owner[tf] == Kernel
    && Born(m0, o0, mem, owner[tf := Free], r)
  }

  lemma TrapframeFirst(m0: Mem, o0: Owners, m1: Mem, mem: Mem, owner: Owners, r: int, tf: int)
    requires tf in o0 && o0[tf] == Free && SameMaps(m0, m1, o0, 0, 0, 0) && SameData(m0, m1, o0)
    requires Born(m1, o0[tf := Kernel], mem, owner, r)
    ensures BornWith(m0, o0, mem, owner, r, tf)
  {
    var o1 := o0[tf := Kernel];
    forall root, v | IsRoot(o0, root) && 0 <= v < MAXVPN ensures Mapping(mem, root, v) == Mapping(m0, root, v) {
      assert IsRoot(o1, root) && IsRoot(owner, root);
    }
    forall y | y in m0 && y in o0 && HoldsData(o0[y]) ensures y in mem && mem[y] == m0[y] {
      assert HoldsData(o1[y]);
    }
    forall y | y in o0 && o0[y] == Free ensures owner[tf := Free][y] == Free || BelongsTo(owner[tf := Free][y], r) {
      assert y == tf || o1[y] == Free;
    }
    assert IsRoot(owner[tf := Free], r);
  }

  lemma BornWithGrows(m0: Mem, o0: Owners, m1: Mem, o1: Owners, m2: Mem, o2: Owners, r: int, tf: int, lo: int, hi: int)
    requires BornWith(m0, o0, m1, o1, r, tf) && Unharmed(m1, o1, m2, o2, r, lo, hi)
    ensures BornWith(m0, o0, m2, o2, r, tf)
  {
    assert Grown(o1[tf := Free], o2[tf := Free], r);
    assert forall root :: IsRoot(o1[tf := Free], root) ==> IsRoot(o1, root);
    BornGrows(m0, o0, m1, o1[tf := Free], m2, o2[tf := Free], r, lo, hi);
  }

  lemma BornWithDies(m0: Mem, o0: Owners, m1: Mem, o1: Owners, m2: Mem, o2: Owners, r: int, tf: int)
    requires TreesOk(m0, o0, -1, 0) && BornWith(m0, o0, m1, o1, r, tf)
    requires Gone(o1[tf := Free], o2, r) && SameMaps(m1, m2, o1, r, 0, MAXVPN) && SameData(m1, m2, o2)
    ensures o2 == o0 && SameMaps(m0, m2, o0, 0, 0, 0) && SameData(m0, m2, o0)
  {
    assert forall root :: IsRoot(o1[tf := Free], root) ==> IsRoot(o1, root);
    BornDies(m0, o0, m1, o1[tf := Free], m2, o2, r);
  }

  /** While the new address space grows and shrinks, nothing else changes. */
  lemma BornWithExchanged(m0: Mem, o0: Owners, m1: Mem, o1: Owners, m2: Mem, o2: Owners, r: int, tf: int, lo: int, hi: int)
    requires BornWith(m0, o0, m1, o1, r, tf) && Exchanged(o1, o2, r) && SameMaps(m1, m2, o1, r, lo, hi)
    requires TreesOk(m0, o0, -1, 0) && (SameData(m1, m2, o1) || SameData(m1, m2, o2))
    ensures BornWith(m0, o0, m2, o2, r, tf)
  {
    hide Mapping, TreesOk;
    FreeRootOwnsNothing(m0, o0, r);
    forall y | y in o0 && o0[y] != Free ensures o1[y] == o0[y] && o2[y] == o0[y] { assert o1[tf := Free][y] == o0[y]; }
    forall y | y in o0 && o0[y] == Free ensures o2[tf := Free][y] == Free || BelongsTo(o2[tf := Free][y], r) {
      assert o1[tf := Free][y] == Free || BelongsTo(o1[tf := Free][y], r);
      assert y != tf ==> Mine(o1[y], r) || o2[y] == o1[y];
    }
    assert IsRoot(o1[tf := Free], r) && IsRoot(o2[tf := Free], r);
    forall root, v | IsRoot(o0, root) && 0 <= v < MAXVPN ensures Mapping(m2, root, v) == Mapping(m0, root, v) {
      assert IsRoot(o1, root) && root != r;
    }
  }

  /** Other address spaces while r and its trapframe come into being. */
  lemma BornWithFacts(m0: Mem, o0: Owners, mem: Mem, owner: Owners, r: int, tf: int)
    requires BornWith(m0, o0, mem, owner, r, tf)
    ensures IsRoot(owner, r) && SameMaps(m0, mem, o0, 0, 0, 0) && SameData(m0, mem, o0)
    ensures forall root | IsRoot(o0, root) :: IsRoot(owner, root) && root != r
  {
  }

  /** A copy of what src held at m1 is a copy of what it held at m0. */
  lemma CopiedSince(m0: Mem, o0: Owners, m1: Mem, mem: Mem, owner: Owners, src: int, dst: int, v: int)
    requires TreesOk(m0, o0, -1, 0) && SameMaps(m0, m1, o0, 0, 0, 0) && SameData(m0, m1, o0) && IsRoot(o0, src)
    requires 0 <= v < TRAPFRAME && Mapping(m0, src, v).v && Copied(m1, mem, owner, src, dst, v)
    ensures Copied(m0, mem, owner, src, dst, v)
  {
    FindIsLabelled(m0, o0, -1, 0, src, v, 2);
    var t := Find(m0, src, v, 2);
    PreStep(v, 2);
    assert EntryOk(m0, o0, t, v % 512);
    assert Placed(m0, o0, m0[t][v % 512].ppn);
  }
}
