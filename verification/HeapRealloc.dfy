/** realloc, its word-then-byte copy, and what allocator clients rely on: contents
    survive, and an allocation that is freed again leaves no trace. */
module HeapRealloc {
  import opened HeapLayout
  import opened HeapSearch
  import opened HeapMemory
  import opened HeapRep
  import opened HeapCells
  import opened Allocator

  /** Where the byte at address a comes from, after copying n bytes from src to dst. */
  function Origin(dst: int, src: int, n: int, a: int): int {
    if dst <= a < dst + n then src + (a - dst) else a
  }

  ghost predicate Copied(before: Bytes, after: Bytes, dst: int, src: int, n: int) {
    forall a :: Byte(after, a) == Byte(before, Origin(dst, src, n, a))
  }

  lemma CopyNone(before: Bytes, dst: int, src: int)
    ensures Copied(before, before, dst, src, 0)
  {
  }

  lemma CopyOne(before: Bytes, r: Bytes, dst: int, src: int, k: nat, n: nat)
    requires dst + n <= src || src + n <= dst
    requires k < n && Copied(before, r, dst, src, k)
    ensures Copied(before, r[dst + k := Byte(r, src + k)], dst, src, k + 1)
  {
    assert Byte(r, src + k) == Byte(before, Origin(dst, src, k, src + k));
    var r' := r[dst + k := Byte(r, src + k)];
    forall a
      ensures Byte(r', a) == Byte(before, Origin(dst, src, k + 1, a))
    {
      assert Byte(r, a) == Byte(before, Origin(dst, src, k, a));
    }
  }

  lemma CopyWord(before: Bytes, r: Bytes, dst: int, src: int, k: nat, n: nat)
    requires dst + n <= src || src + n <= dst
    requires k + 4 <= n && Copied(before, r, dst, src, k)
    ensures var r' := r[dst + k := Byte(r, src + k)][dst + k + 1 := Byte(r, src + k + 1)]
                       [dst + k + 2 := Byte(r, src + k + 2)][dst + k + 3 := Byte(r, src + k + 3)];
            Copied(before, r', dst, src, k + 4)
  {
    hide Copied;
    CopyOne(before, r, dst, src, k, n);
    var r1 := r[dst + k := Byte(r, src + k)];
    CopyOne(before, r1, dst, src, k + 1, n);
    var r2 := r1[dst + k + 1 := Byte(r1, src + k + 1)];
    CopyOne(before, r2, dst, src, k + 2, n);
    var r3 := r2[dst + k + 2 := Byte(r2, src + k + 2)];
    CopyOne(before, r3, dst, src, k + 3, n);
  }

  /** liballoc_memcpy: whole 32-bit words while they last, then single bytes. The
      result is that of a plain byte copy. */
  method Memcpy(bytes: Bytes, dst: int, src: int, n: nat) returns (r: Bytes)
    requires dst + n <= src || src + n <= dst
    ensures Copied(bytes, r, dst, src, n)
  {
    hide Copied, Byte;
    r := bytes;
    CopyNone(bytes, dst, src);
    var ldest, lsrc, left := dst, src, n;
    while left >= 4
      invariant 0 <= left <= n && ldest == dst + (n - left) && lsrc == src + (n - left)
      invariant Copied(bytes, r, dst, src, n - left)
    {
      var w0, w1, w2, w3 := Byte(r, lsrc), Byte(r, lsrc + 1), Byte(r, lsrc + 2), Byte(r, lsrc + 3);
      ghost var k := n - left;
      CopyWord(bytes, r, dst, src, k, n);
      r := r[ldest := w0][ldest + 1 := w1][ldest + 2 := w2][ldest + 3 := w3];
      ldest, lsrc, left := ldest + 4, lsrc + 4, left - 4;
    }
    while left > 0
      invariant 0 <= left <= n && ldest == dst + (n - left) && lsrc == src + (n - left)
      invariant Copied(bytes, r, dst, src, n - left)
    {
      CopyOne(bytes, r, dst, src, n - left, n);
      r := r[ldest := Byte(r, lsrc)];
      ldest, lsrc, left := ldest + 1, lsrc + 1, left - 1;
    }
  }

  /** Every byte of every region in cells is the same before and after. */
  ghost predicate Untouched(cells: set<Cell>, before: Bytes, after: Bytes) {
    forall c, a :: c in cells && InRegion(c, a) ==> Byte(after, a) == Byte(before, a)
  }

  // ---------- Allocate, then free ----------

  /** free(malloc(n)) restores majors, minors, usage, totals and mapped pages: the
      layout the headers represent, the totals and the hook's books are as before. */
  method MallocThenFree(h: Heap, req: int, page: int)
    requires h.Valid() && RequestOk(req) && PageOffer(h.H, page, req + PADDING)
    modifies h
    ensures h.Valid() && h.H == old(h.H)
    ensures h.inuse == old(h.inuse) && h.acquired == old(h.acquired) && h.memRoot == old(h.memRoot)
    ensures h.mapped == old(h.mapped)
    ensures Untouched(Cells(old(h.H)), old(h.bytes), h.bytes)
  {
    hide LayoutOk, Cells, MallocLayout, MallocSpot, PageOffer, PagesFor, FreeLayout, NoneEmpty, UserPtr, MajorsOk,
         MinorsOk, PadsOk, HasRoom;
    ghost var layout, best := h.H, h.bestBet;
    ghost var c;
    var p;
    p, c := h.Malloc(req, page);
    ghost var mid, s := h.H, MallocSpot(layout, best, req);
    if p != 0 {
      MallocUndone(layout, best, req, page, mid);
      UndoMapped(layout, best, req, page, mid, old(h.mapped));
      WriteInCell(mid, layout, c, old(h.bytes), h.bytes);
    }
    h.Free(p);
    assert p != 0 ==> s.At? && Live(mid, s.block, s.gap) && UserPtr(mid[s.block].cells[s.gap]) == p;
  }

  lemma MallocUndone(layout: Layout, best: int, req: int, page: int, after: Layout)
    requires NoneEmpty(layout) && 0 <= req && after == MallocLayout(layout, best, req, page)
    requires page != 0 || !NoGapAnywhere(layout, req)
    ensures var s := MallocSpot(layout, best, req);
            Live(after, s.block, s.gap) && FreeLayout(after, s.block, s.gap) == layout
  {
    hide Placement, Start, HasRoom;
    var need := req + PADDING + MINOR;
    PlacementComplete(layout, need, Start(layout, best, need));
    MallocChanges(layout, best, req, page);
    FreeUndoesMalloc(layout, best, req, page);
  }

  /** A block holds a single cell after malloc exactly when malloc asked the hook. */
  lemma UndoMapped(layout: Layout, best: int, req: int, page: int, after: Layout, mapped: map<int, int>)
    requires LayoutOk(layout) && NoneEmpty(layout) && MappedOk(mapped, layout) && 0 <= req
    requires after == MallocLayout(layout, best, req, page) && PageOffer(layout, page, req + PADDING)
    requires page != 0 || !NoGapAnywhere(layout, req)
    ensures var s := MallocSpot(layout, best, req);
            && Live(after, s.block, s.gap)
            && (|after[s.block].cells| == 1 <==> NoGapAnywhere(layout, req))
            && (NoGapAnywhere(layout, req) ==>
                  after[s.block].base == page && mapped[page := PagesFor(req + PADDING)] - {page} == mapped)
  {
    var need := req + PADDING + MINOR;
    PlacementComplete(layout, need, Start(layout, best, need));
    MallocCases(layout, best, req, page);
    if NoGapAnywhere(layout, req) {
      PageUnmapped(layout, page, req + PADDING, mapped);
    }
  }

  lemma PageUnmapped(layout: Layout, page: int, size: int, mapped: map<int, int>)
    requires LayoutOk(layout) && MappedOk(mapped, layout) && 0 <= size
    requires page != 0 && PageOffer(layout, page, size)
    ensures page !in mapped && mapped[page := PagesFor(size)] - {page} == mapped
  {}

  lemma WriteInCell(h: Layout, before: Layout, c: Cell, bytes: Bytes, bytes': Bytes)
    requires LayoutOk(h) && c in Cells(h) && Cells(before) <= Cells(h)
    requires bytes' == bytes[UserPtr(c) - ALIGN_INFO := Pad(c)]
    ensures Untouched(Cells(before), bytes, bytes')
  {
    forall d, a | d in Cells(before) && InRegion(d, a)
      ensures Byte(bytes', a) == Byte(bytes, a)
    {
      RegionsDisjoint(h, d, c, a);
    }
  }

  // ---------- realloc ----------

  /** Byte k of what the owner of c has stored. */
  function UserByte(bytes: Bytes, c: Cell, k: int): int {
    Byte(bytes, UserPtr(c) + k)
  }

  /** What realloc promises for a live pointer and a non-zero size: one cell is
      replaced, the common prefix of its bytes survives, nobody else's bytes change. */
  ghost predicate Moved(before: Layout, b: Bytes, after: Layout, b': Bytes, c: Cell, c': Cell, size: int) {
    && Cells(after) == Cells(before) - {c} + {c'} && c' !in Cells(before) - {c}
    && c'.req == size
    && (forall k :: 0 <= k < size && k < c.req ==> UserByte(b', c', k) == UserByte(b, c, k))
    && Untouched(Cells(before) - {c}, b, b')
  }

  /** The layouts realloc leaves: c freed; c freed after a malloc; c's request rewritten. */
  ghost predicate Freed(h: Layout, h': Layout, c: Cell) {
    exists i: nat, j: nat :: Live(h, i, j) && h[i].cells[j] == c && h' == FreeLayout(h, i, j)
  }

  ghost predicate Regrown(h: Layout, best: int, h': Layout, c: Cell, size: int, page: int) {
    0 <= size && Freed(MallocLayout(h, best, size, page), h', c)
  }

  ghost predicate Shrunk(h: Layout, h': Layout, c: Cell, size: int) {
    exists i: nat, j: nat :: Live(h, i, j) && h[i].cells[j] == c && h' == h[i := SetReq(h[i], j, size)]
  }

  /** free takes out the cell of its pointer. */
  lemma FreeIsFreed(h: Layout, h': Layout, c: Cell)
    requires LayoutOk(h) && c in Cells(h)
    requires forall i: nat, j: nat :: Live(h, i, j) && UserPtr(h[i].cells[j]) == UserPtr(c) ==> h' == FreeLayout(h, i, j)
    ensures Freed(h, h', c)
  {
    hide LayoutOk, FreeLayout;
    var i, j := Coordinates(h, c);
    assert Live(h, i, j) && h[i].cells[j] == c;
  }

  /** Unalign a live pointer and find its header. */
  method HeaderOf(h: Heap, p: int, ghost i: nat, ghost j: nat) returns (min: int)
    requires h.Valid() && Live(h.H, i, j) && UserPtr(h.H[i].cells[j]) == p
    ensures min == h.H[i].cells[j].addr && min in h.minors
    ensures h.minors[min].data == MinorItem(h.H[i].base, h.H[i].cells[j]).data
  {
    hide Represents, LayoutOk, UserPtr, NoneEmpty;
    SlotFacts(h.State(), h.H, i, j);
    MinorFacts(h.State(), h.H, i, j);
    var diff := Byte(h.bytes, p - ALIGN_INFO);
    min := (if diff < PADDING then p - diff else p) - MINOR;
  }

  /** The request shrinks: rewrite the requested size in place. */
  method ShrinkInPlace(h: Heap, min: int, size: int, ghost i: nat, ghost j: nat) returns (ghost c': Cell)
    requires h.Valid() && Live(h.H, i, j) && min == h.H[i].cells[j].addr && 0 < size <= h.H[i].cells[j].req
    modifies h`minors, h`H
    ensures h.Valid() && UserPtr(c') == UserPtr(old(h.H)[i].cells[j])
    ensures Moved(old(h.H), h.bytes, h.H, h.bytes, old(h.H)[i].cells[j], c', size)
    ensures Shrunk(old(h.H), h.H, old(h.H)[i].cells[j], size)
  {
    hide Represents, LayoutOk, UserPtr, NoneEmpty;
    c' := h.H[i].cells[j].(req := size);
    LayoutOfRep(h.State(), h.H);
    SetReqRepresents(h.State(), h.H, i, j, size);
    SetReqCells(h.H, i, j, size);
    SetReqKeeps(h.H, i, j, size);
    if c' in Cells(h.H) {
      InCells(h.H, i, j);
      UserPtrUnique(h.H, h.H[i].cells[j], c');
    }
    h.minors := h.minors[min := h.minors[min].(data := h.minors[min].data.(req := size))];
    h.H := h.H[i := SetReq(h.H[i], j, size)];
  }

  lemma SetReqKeeps(h: Layout, i: nat, j: nat, size: int)
    requires Live(h, i, j)
    ensures NoneEmpty(h) ==> NoneEmpty(h[i := SetReq(h[i], j, size)])
    ensures UserPtr(h[i].cells[j].(req := size)) == UserPtr(h[i].cells[j])
  {
  }

  lemma SetReqCells(h: Layout, i: nat, j: nat, size: int)
    requires LayoutOk(h) && Live(h, i, j)
    ensures Cells(h[i := SetReq(h[i], j, size)]) == Cells(h) - {h[i].cells[j]} + {h[i].cells[j].(req := size)}
  {
    hide LayoutOk;
    var h', c, c' := h[i := SetReq(h[i], j, size)], h[i].cells[j], h[i].cells[j].(req := size);
    assert h'[i].cells[j] == c';
    forall d | d in Cells(h) && d != c
      ensures d in Cells(h')
    {
      var k, l := Coordinates(h, d);
      assert h'[k].cells[l] == d;
    }
    forall d | d in Cells(h') && d != c'
      ensures d in Cells(h) && d != c
    {
      var k, l := Coordinates(h', d);
      assert h[k].cells[l] == d;
      FreedIsGone(h, i, j, k, l);
    }
  }

  /** The request grows: allocate, copy, free. */
  method GrowByCopy(h: Heap, p: int, held: int, size: int, page: int, ghost c: Cell) returns (q: int, ghost c': Cell)
    requires h.Valid() && RequestOk(size) && PageOffer(h.H, page, size + PADDING)
    requires c in Cells(h.H) && UserPtr(c) == p && c.req == held < size && p != 0
    requires page != 0 || !NoGapAnywhere(h.H, size)
    modifies h
    ensures h.Valid() && q != 0 && q == UserPtr(c')
    ensures Moved(old(h.H), old(h.bytes), h.H, h.bytes, c, c', size)
    ensures Regrown(old(h.H), old(h.bestBet), h.H, c, size, page)
  {
    hide Represents, LayoutOk, UserPtr, Pad, NoneEmpty, Cells, PageOffer, NoGapAnywhere, MallocLayout, MallocSpot,
         FreeLayout, PagesFor, Moved, Copied, Freed;
    ghost var before, b := h.H, h.bytes;
    q, c' := h.Malloc(size, page);
    ghost var mid, m := h.H, h.bytes;
    LayoutOfRep(h.State(), mid);
    CopyDisjoint(mid, c, c');
    var copied := Memcpy(h.bytes, q, p, held);
    CopyInRegion(mid, c', m, copied, p, held);
    BytesRepresents(h.State(), mid, copied);
    h.bytes := copied;
    h.Free(p);
    FreeIsFreed(mid, h.H, c);
    MovedByCopy(before, mid, h.H, b, m, copied, c, c');
  }

  lemma CopyDisjoint(h: Layout, c: Cell, c': Cell)
    requires LayoutOk(h) && c in Cells(h) && c' in Cells(h) && c != c' && c.req <= c'.req
    ensures UserPtr(c) + c.req <= UserPtr(c') || UserPtr(c') + c.req <= UserPtr(c)
    ensures 0 <= c.req
  {}

  lemma CopyInRegion(h: Layout, c: Cell, m: Bytes, copied: Bytes, src: int, n: int)
    requires c in Cells(h) && n <= c.req && Copied(m, copied, UserPtr(c), src, n)
    ensures WritesInRegions(m, copied, h)
  {}

  lemma CopiedByte(mid: Layout, b: Bytes, m: Bytes, copied: Bytes, c: Cell, c': Cell, d: Cell, a: int)
    requires LayoutOk(mid) && d in Cells(mid) && c' in Cells(mid) && d != c' && c.req <= c'.req && InRegion(d, a)
    requires m == b[UserPtr(c') - ALIGN_INFO := Pad(c')]
    requires Copied(m, copied, UserPtr(c'), UserPtr(c), c.req)
    ensures Byte(m, a) == Byte(b, a) && Byte(copied, a) == Byte(b, a)
  {}

  lemma OnlyCell(h: Layout, c: Cell)
    requires LayoutOk(h) && c in Cells(h)
    ensures (set d | d in Cells(h) && UserPtr(d) != UserPtr(c)) == Cells(h) - {c}
  {}

  lemma CopiedContents(mid: Layout, b: Bytes, m: Bytes, copied: Bytes, c: Cell, c': Cell, k: int)
    requires LayoutOk(mid) && c in Cells(mid) && c' in Cells(mid) && c != c' && 0 <= k < c.req <= c'.req
    requires m == b[UserPtr(c') - ALIGN_INFO := Pad(c')]
    requires Copied(m, copied, UserPtr(c'), UserPtr(c), c.req)
    ensures UserByte(copied, c', k) == UserByte(b, c, k)
  {
    hide LayoutOk, UserPtr, Pad;
    assert Byte(copied, UserPtr(c') + k) == Byte(m, Origin(UserPtr(c'), UserPtr(c), c.req, UserPtr(c') + k));
    CopiedByte(mid, b, m, copied, c, c', c, UserPtr(c) + k);
  }

  /** malloc, copy and free together are a move. */
  lemma MovedByCopy(before: Layout, mid: Layout, after: Layout, b: Bytes, m: Bytes, copied: Bytes, c: Cell, c': Cell)
    requires LayoutOk(mid) && c in Cells(before) && c' !in Cells(before) && Cells(mid) == Cells(before) + {c'}
    requires Cells(after) == set d | d in Cells(mid) && UserPtr(d) != UserPtr(c)
    requires m == b[UserPtr(c') - ALIGN_INFO := Pad(c')] && c.req <= c'.req
    requires Copied(m, copied, UserPtr(c'), UserPtr(c), c.req)
    ensures Moved(before, b, after, copied, c, c', c'.req)
  {
    hide LayoutOk, Cells, UserPtr, Pad, Copied, Byte;
    OnlyCell(mid, c);
    forall k | 0 <= k < c'.req && k < c.req
      ensures UserByte(copied, c', k) == UserByte(b, c, k)
    {
      CopiedContents(mid, b, m, copied, c, c', k);
    }
    forall d, a | d in Cells(before) - {c} && InRegion(d, a)
      ensures Byte(copied, a) == Byte(b, a)
    {
      CopiedByte(mid, b, m, copied, c, c', d, a);
    }
  }

  /** realloc, for a call whose inner malloc, if any, succeeds. c is the cell of p. */
  method Realloc(h: Heap, p: int, size: int, page: int, ghost c: Cell) returns (q: int, ghost c': Cell)
    requires h.Valid() && RequestOk(size) && PageOffer(h.H, page, size + PADDING)
    requires p != 0 ==> c in Cells(h.H) && UserPtr(c) == p
    requires p != 0 && size > c.req ==> page != 0 || !NoGapAnywhere(h.H, size)
    modifies h
    ensures h.Valid()
    ensures size == 0 && p != 0 ==> Freed(old(h.H), h.H, c)
    ensures size == 0 ==> q == 0 && h.bytes == old(h.bytes)
                          && Cells(h.H) == if p == 0 then Cells(old(h.H)) else Cells(old(h.H)) - {c}
    ensures size > 0 && p == 0 ==> h.H == MallocLayout(old(h.H), old(h.bestBet), size, page)
                                   && (q != 0 ==> q == UserPtr(c') && Cells(h.H) == Cells(old(h.H)) + {c'})
    ensures size > 0 && p != 0 ==> q == UserPtr(c') && q != 0
                                   && Moved(old(h.H), old(h.bytes), h.H, h.bytes, c, c', size)
    ensures size > 0 && p != 0 && size <= c.req ==> q == p && Shrunk(old(h.H), h.H, c, size)
    ensures size > 0 && p != 0 && size > c.req ==> Regrown(old(h.H), old(h.bestBet), h.H, c, size, page)
  {
    hide Represents, LayoutOk, UserPtr, Pad, NoneEmpty, Cells, PageOffer, NoGapAnywhere, MallocLayout, MallocSpot,
         FreeLayout, PagesFor, Moved, Freed, Regrown, Shrunk;
    LayoutOfRep(h.State(), h.H);
    c' := c;
    if size == 0 {
      ghost var before := h.H;
      if p != 0 { OnlyCell(before, c); }
      h.Free(p);
      if p != 0 { FreeIsFreed(before, h.H, c); }
      q := 0;
      return;
    }
    if p == 0 {
      q, c' := h.Malloc(size, page);
      return;
    }
    ghost var i, j := Coordinates(h.H, c);
    var min := HeaderOf(h, p, i, j);
    var held := h.minors[min].data.req;
    if held >= size {
      c' := ShrinkInPlace(h, min, size, i, j);
      q := p;
    } else {
      q, c' := GrowByCopy(h, p, held, size, page, c);
    }
  }
}
