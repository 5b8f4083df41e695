/** The layout of the kernel heap as a value: page-backed blocks ("majors"), each
    holding address-ordered cells ("minors"). Addresses are integers and 0 is the
    null pointer. The pointer structure that represents a layout in memory is in
    modules HeapMemory and HeapRep. */
module HeapLayout {
  import opened Machine

  const MAJOR := 24         // sizeof(struct liballoc_major), 32-bit
  const MINOR := 24         // sizeof(struct liballoc_minor), 32-bit
  const PAGE := 4096
  const ALIGNMENT := 16
  const ALIGN_INFO := 16
  const PADDING := ALIGNMENT + ALIGN_INFO

  /** A minor: its header at `addr`, followed by `size` bytes of payload. */
  datatype Cell = Cell(addr: int, size: int, req: int)

  /** A major: `pages` pages at `base`, its header first. */
  datatype Block = Block(base: int, pages: int, cells: seq<Cell>)

  type Layout = seq<Block>

  function End(c: Cell): int { c.addr + MINOR + c.size }

  function Size(b: Block): int { b.pages * PAGE }

  function Limit(b: Block): int { b.base + Size(b) }

  /** Bytes taken by cells, headers included. */
  function Used(cells: seq<Cell>): int {
    if cells == [] then 0 else cells[0].size + MINOR + Used(cells[1..])
  }

  function Usage(b: Block): int { MAJOR + Used(b.cells) }

  function Spare(b: Block): int { Size(b) - Usage(b) }

  function Payload(cells: seq<Cell>): int {
    if cells == [] then 0 else cells[0].size + Payload(cells[1..])
  }

  /** Sum of the payload sizes of all cells: the running total l_inuse. */
  function InUse(h: Layout): int {
    if h == [] then 0 else Payload(h[0].cells) + InUse(h[1..])
  }

  /** Sum of the sizes of all blocks: the running total l_allocated. */
  function Allocated(h: Layout): int {
    if h == [] then 0 else Size(h[0]) + Allocated(h[1..])
  }

  // ---------- Well-formed layouts ----------

  ghost predicate CellOk(b: Block, c: Cell) {
    && b.base + MAJOR <= c.addr
    && End(c) <= Limit(b)
    && 0 <= c.req
    && c.req + PADDING <= c.size
  }

  ghost predicate BlockOk(b: Block) {
    && 0 < b.base
    && 1 <= b.pages
    && Limit(b) <= U32
    && (forall j :: 0 <= j < |b.cells| ==> CellOk(b, b.cells[j]))
    && (forall j, k :: 0 <= j < k < |b.cells| ==> End(b.cells[j]) <= b.cells[k].addr)
  }

  ghost predicate Apart(a: Block, b: Block) {
    Limit(a) <= b.base || Limit(b) <= a.base
  }

  ghost predicate LayoutOk(h: Layout) {
    && (forall i :: 0 <= i < |h| ==> BlockOk(h[i]))
    && (forall i, k :: 0 <= i < k < |h| ==> Apart(h[i], h[k]))
  }

  ghost predicate NoneEmpty(h: Layout) {
    forall i :: 0 <= i < |h| ==> h[i].cells != []
  }

  // ---------- Sums ----------

  lemma {:induction false} UsedConcat(a: seq<Cell>, b: seq<Cell>)
    ensures Used(a + b) == Used(a) + Used(b)
    ensures Payload(a + b) == Payload(a) + Payload(b)
  {
    if a == [] {
      assert a + b == b;
    } else {
      assert (a + b)[1..] == a[1..] + b;
      UsedConcat(a[1..], b);
    }
  }

  lemma {:induction false} TotalsConcat(a: Layout, b: Layout)
    ensures InUse(a + b) == InUse(a) + InUse(b)
    ensures Allocated(a + b) == Allocated(a) + Allocated(b)
  {
    if a == [] {
      assert a + b == b;
    } else {
      assert (a + b)[1..] == a[1..] + b;
      TotalsConcat(a[1..], b);
    }
  }

  /** Replacing one block changes the totals by exactly that block's difference. */
  lemma TotalsReplace(h: Layout, i: nat, b: Block)
    requires i < |h|
    ensures InUse(h[i := b]) == InUse(h) - Payload(h[i].cells) + Payload(b.cells)
    ensures Allocated(h[i := b]) == Allocated(h) - Size(h[i]) + Size(b)
  {
    assert h == h[..i] + ([h[i]] + h[i + 1..]);
    assert h[i := b] == h[..i] + ([b] + h[i + 1..]);
    TotalsConcat(h[..i], [h[i]] + h[i + 1..]);
    TotalsConcat(h[..i], [b] + h[i + 1..]);
    TotalsConcat([h[i]], h[i + 1..]);
    TotalsConcat([b], h[i + 1..]);
  }

  lemma {:induction false} TotalsRemove(h: Layout, i: nat)
    requires i < |h|
    ensures InUse(h[..i] + h[i + 1..]) == InUse(h) - Payload(h[i].cells)
    ensures Allocated(h[..i] + h[i + 1..]) == Allocated(h) - Size(h[i])
  {
    assert h == h[..i] + ([h[i]] + h[i + 1..]);
    TotalsConcat(h[..i], [h[i]] + h[i + 1..]);
    TotalsConcat([h[i]], h[i + 1..]);
    TotalsConcat(h[..i], h[i + 1..]);
  }

  // ---------- Gaps ----------

  /** Gap j of a block lies before cell j; gap |cells| is the tail. */
  function GapStart(b: Block, j: nat): int
    requires j <= |b.cells|
  {
    if j == 0 then b.base + MAJOR else End(b.cells[j - 1])
  }

  function GapEnd(b: Block, j: nat): int
    requires j <= |b.cells|
  {
    if j == |b.cells| then Limit(b) else b.cells[j].addr
  }

  function Gap(b: Block, j: nat): int
    requires j <= |b.cells|
  {
    GapEnd(b, j) - GapStart(b, j)
  }

  ghost predicate Fits(b: Block, j: nat, need: int) {
    j <= |b.cells| && Gap(b, j) >= need
  }

  ghost predicate HasRoom(b: Block, need: int) {
    exists j: nat :: Fits(b, j, need)
  }

  function GapSum(b: Block, n: nat): int
    requires n <= |b.cells| + 1
  {
    if n == 0 then 0 else GapSum(b, n - 1) + Gap(b, n - 1)
  }

  lemma {:induction false} GapSumPrefix(b: Block, n: nat)
    requires n <= |b.cells|
    ensures GapSum(b, n) + Used(b.cells[..n]) == GapStart(b, n) - b.base - MAJOR
  {
    if n > 0 {
      GapSumPrefix(b, n - 1);
      assert b.cells[..n] == b.cells[..n - 1] + [b.cells[n - 1]];
      UsedConcat(b.cells[..n - 1], [b.cells[n - 1]]);
    }
  }

  /** The gaps of a block sum to exactly its free byte count. */
  lemma {:induction false} GapsSumToSpare(b: Block)
    ensures GapSum(b, |b.cells| + 1) == Spare(b)
  {
    GapSumPrefix(b, |b.cells|);
    assert b.cells[..|b.cells|] == b.cells;
  }

  lemma GapNonNegative(b: Block, j: nat)
    requires BlockOk(b) && j <= |b.cells|
    requires MAJOR <= Size(b)
    ensures 0 <= Gap(b, j)
  {}

  lemma {:induction false} GapSumMonotone(b: Block, m: nat, n: nat)
    requires BlockOk(b) && m <= n <= |b.cells| + 1
    ensures GapSum(b, m) <= GapSum(b, n)
  {
    if m < n {
      GapNonNegative(b, n - 1);
      GapSumMonotone(b, m, n - 1);
    }
  }

  lemma {:induction false} GapAtMostSum(b: Block, j: nat)
    requires BlockOk(b) && j <= |b.cells|
    ensures 0 <= Gap(b, j) <= GapSum(b, |b.cells| + 1)
  {
    GapNonNegative(b, j);
    GapSumMonotone(b, 0, j);
    GapSumMonotone(b, j + 1, |b.cells| + 1);
  }

  /** Pruning by the total free count is sound: no single gap exceeds it. */
  lemma RoomNeedsSpare(b: Block, need: int)
    requires BlockOk(b)
    ensures HasRoom(b, need) ==> need <= Spare(b)
    ensures 0 <= Spare(b)
  {
    GapsSumToSpare(b);
    GapAtMostSum(b, 0);
    if HasRoom(b, need) {
      var j: nat :| Fits(b, j, need);
      GapAtMostSum(b, j);
    }
  }

  // ---------- Aligned user pointers ----------

  /** ALIGN: skip the undo slot, then round up to the alignment. */
  function Align(x: int): int {
    var p := x + ALIGN_INFO;
    var diff := p % ALIGNMENT;
    if diff != 0 then p + (ALIGNMENT - diff) else p
  }

  function UserPtr(c: Cell): int { Align(c.addr + MINOR) }

  /** What ALIGN stores in the undo slot. */
  function Pad(c: Cell): int { UserPtr(c) - (c.addr + MINOR) }

  /** Every user pointer is aligned, its undo slot and its requested bytes lie
      inside its own cell, and the stored offset passes UNALIGN's test and leads
      back to the byte after the header. */
  lemma UserRegionInsideCell(c: Cell)
    requires 0 <= c.req && c.req + PADDING <= c.size
    ensures UserPtr(c) % ALIGNMENT == 0
    ensures c.addr + MINOR <= UserPtr(c) - ALIGN_INFO
    ensures UserPtr(c) + c.req <= End(c)
    ensures ALIGN_INFO <= Pad(c) < PADDING
    ensures UserPtr(c) - Pad(c) == c.addr + MINOR
  {
  }

  ghost predicate Live(h: Layout, i: nat, j: nat) {
    i < |h| && j < |h[i].cells|
  }

  /** Extents of different live cells never overlap, so neither do their headers,
      undo slots and user regions. */
  lemma CellsApart(h: Layout, i: nat, j: nat, k: nat, l: nat)
    requires LayoutOk(h) && Live(h, i, j) && Live(h, k, l)
    requires i != k || j != l
    ensures End(h[i].cells[j]) <= h[k].cells[l].addr || End(h[k].cells[l]) <= h[i].cells[j].addr
  {}

  /** A user pointer determines its cell. */
  lemma UserPtrInjective(h: Layout, i: nat, j: nat, k: nat, l: nat)
    requires LayoutOk(h) && Live(h, i, j) && Live(h, k, l)
    requires UserPtr(h[i].cells[j]) == UserPtr(h[k].cells[l])
    ensures i == k && j == l
  {}

  // ---------- Inserting and removing cells ----------

  function Insert(b: Block, j: nat, c: Cell): Block
    requires j <= |b.cells|
  {
    b.(cells := b.cells[..j] + [c] + b.cells[j..])
  }

  function Remove(b: Block, j: nat): Block
    requires j < |b.cells|
  {
    b.(cells := b.cells[..j] + b.cells[j + 1..])
  }

  lemma InsertTotals(b: Block, j: nat, c: Cell)
    requires j <= |b.cells|
    ensures Usage(Insert(b, j, c)) == Usage(b) + c.size + MINOR
    ensures Payload(Insert(b, j, c).cells) == Payload(b.cells) + c.size
  {
    assert b.cells == b.cells[..j] + b.cells[j..];
    UsedConcat(b.cells[..j], b.cells[j..]);
    UsedConcat(b.cells[..j] + [c], b.cells[j..]);
    UsedConcat(b.cells[..j], [c]);
  }

  lemma InsertThenRemove(b: Block, j: nat, c: Cell)
    requires j <= |b.cells|
    ensures Remove(Insert(b, j, c), j) == b
  {}

  lemma RemoveThenInsert(b: Block, j: nat)
    requires j < |b.cells|
    ensures Insert(Remove(b, j), j, b.cells[j]) == b
  {}

  lemma RemoveTotals(b: Block, j: nat)
    requires j < |b.cells|
    ensures Usage(Remove(b, j)) == Usage(b) - b.cells[j].size - MINOR
    ensures Payload(Remove(b, j).cells) == Payload(b.cells) - b.cells[j].size
  {
    RemoveThenInsert(b, j);
    InsertTotals(Remove(b, j), j, b.cells[j]);
  }

  lemma InsertCellsOk(b: Block, j: nat, c: Cell)
    requires BlockOk(b) && j <= |b.cells| && CellOk(b, c)
    ensures forall k :: 0 <= k < |Insert(b, j, c).cells| ==> CellOk(Insert(b, j, c), Insert(b, j, c).cells[k])
  {}

  /** Filling a gap that is large enough keeps the block well formed. */
  lemma InsertOk(b: Block, j: nat, size: int, req: int)
    requires BlockOk(b) && Fits(b, j, size + MINOR)
    requires 0 <= req && req + PADDING <= size
    ensures BlockOk(Insert(b, j, Cell(GapStart(b, j), size, req)))
  {
    var c := Cell(GapStart(b, j), size, req);
    var cs, cs' := b.cells, Insert(b, j, c).cells;
    assert j > 0 ==> CellOk(b, cs[j - 1]);
    assert j < |cs| ==> CellOk(b, cs[j]);
    InsertCellsOk(b, j, c);
    forall k, l | 0 <= k < l < |cs'|
      ensures End(cs'[k]) <= cs'[l].addr
    {
      if k < j < l {
        assert End(cs[k]) <= cs[l - 1].addr;
      } else if k < j == l {
        assert k == j - 1 || End(cs[k]) <= cs[j - 1].addr;
      } else if k == j {
        assert l - 1 == j || End(cs[j]) <= cs[l - 1].addr;
      }
    }
  }

  lemma RemoveOk(b: Block, j: nat)
    requires BlockOk(b) && j < |b.cells|
    ensures BlockOk(Remove(b, j))
  {}

  lemma ReplaceOk(h: Layout, i: nat, b: Block)
    requires LayoutOk(h) && i < |h| && BlockOk(b)
    requires b.base == h[i].base && b.pages == h[i].pages
    ensures LayoutOk(h[i := b])
  {}

  // ---------- Changing a requested size in place ----------

  function SetReq(b: Block, j: nat, req: int): Block
    requires j < |b.cells|
  {
    b.(cells := b.cells[j := b.cells[j].(req := req)])
  }

  lemma SetReqTotals(b: Block, j: nat, req: int)
    requires j < |b.cells|
    ensures Used(SetReq(b, j, req).cells) == Used(b.cells)
    ensures Payload(SetReq(b, j, req).cells) == Payload(b.cells)
  {
    var c := b.cells[j].(req := req);
    assert SetReq(b, j, req).cells == b.cells[..j] + ([c] + b.cells[j + 1..]);
    assert b.cells == b.cells[..j] + ([b.cells[j]] + b.cells[j + 1..]);
    UsedConcat(b.cells[..j], [c] + b.cells[j + 1..]);
    UsedConcat(b.cells[..j], [b.cells[j]] + b.cells[j + 1..]);
  }

  lemma SetReqOk(b: Block, j: nat, req: int)
    requires BlockOk(b) && j < |b.cells| && 0 <= req <= b.cells[j].req
    ensures BlockOk(SetReq(b, j, req))
  {}
}
