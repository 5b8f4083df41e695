/** The heap as its users see it: a set of live cells, each owning the bytes of its
    user region. */
module HeapCells {
  import opened Machine
  import opened HeapLayout
  import opened HeapSearch
  import opened HeapMemory
  import opened HeapRep

  function Cells(h: Layout): set<Cell> {
    set i, j | 0 <= i < |h| && 0 <= j < |h[i].cells| :: h[i].cells[j]
  }

  predicate InRegion(c: Cell, a: int) {
    UserPtr(c) <= a < UserPtr(c) + c.req
  }

  lemma Coordinates(h: Layout, c: Cell) returns (i: nat, j: nat)
    requires c in Cells(h)
    ensures Live(h, i, j) && h[i].cells[j] == c
  {
    i, j :| Live(h, i, j) && h[i].cells[j] == c;
  }

  lemma InCells(h: Layout, i: nat, j: nat)
    requires Live(h, i, j)
    ensures h[i].cells[j] in Cells(h)
  {
  }

  lemma CellShape(h: Layout, c: Cell)
    requires LayoutOk(h) && c in Cells(h)
    ensures 0 <= c.req && c.req + PADDING <= c.size && 0 < c.addr
    ensures c.addr + MINOR <= UserPtr(c) - ALIGN_INFO && UserPtr(c) + c.req <= End(c) <= U32
    ensures UserPtr(c) % ALIGNMENT == 0
  {}

  /** No byte belongs to two live cells, and no undo slot lies in a user region. */
  lemma RegionsDisjoint(h: Layout, c: Cell, d: Cell, a: int)
    requires LayoutOk(h) && c in Cells(h) && d in Cells(h)
    requires InRegion(c, a)
    ensures c != d ==> !InRegion(d, a)
    ensures a != UserPtr(d) - ALIGN_INFO
  {}

  lemma UserPtrUnique(h: Layout, c: Cell, d: Cell)
    requires LayoutOk(h) && c in Cells(h) && d in Cells(h) && UserPtr(c) == UserPtr(d)
    ensures c == d
  {}

  // ---------- The effect of each layout change on the set of cells ----------

  lemma RemoveCells(h: Layout, i: nat, j: nat)
    requires LayoutOk(h) && Live(h, i, j)
    ensures Cells(h[i := Remove(h[i], j)]) == Cells(h) - {h[i].cells[j]}
  {
    hide LayoutOk;
    var h', c := h[i := Remove(h[i], j)], h[i].cells[j];
    forall d | d in Cells(h) && d != c
      ensures d in Cells(h')
    {
      var k, l := Coordinates(h, d);
      assert h'[k].cells[if k == i && l > j then l - 1 else l] == d;
    }
    forall d | d in Cells(h')
      ensures d in Cells(h) && d != c
    {
      var k, l := Coordinates(h', d);
      var n := if k == i && l >= j then l + 1 else l;
      assert h[k].cells[n] == d;
      FreedIsGone(h, i, j, k, n);
    }
  }

  lemma DropCells(h: Layout, i: nat)
    requires i < |h| && h[i].cells == []
    ensures Cells(h[..i] + h[i + 1..]) == Cells(h)
  {
    var h' := h[..i] + h[i + 1..];
    forall d | d in Cells(h)
      ensures d in Cells(h')
    {
      var k, l := Coordinates(h, d);
      assert h'[if k < i then k else k - 1].cells[l] == d;
    }
    forall d | d in Cells(h')
      ensures d in Cells(h)
    {
      var k, l := Coordinates(h', d);
      assert h[if k < i then k else k + 1].cells[l] == d;
    }
  }

  /** free removes exactly one cell. */
  lemma FreeCells(h: Layout, i: nat, j: nat)
    requires LayoutOk(h) && Live(h, i, j)
    ensures Cells(FreeLayout(h, i, j)) == Cells(h) - {h[i].cells[j]}
  {
    hide LayoutOk, Cells;
    RemoveCells(h, i, j);
    if |h[i].cells| == 1 {
      var g := h[i := Remove(h[i], j)];
      DropCells(g, i);
      assert g[..i] + g[i + 1..] == h[..i] + h[i + 1..];
    }
  }

  lemma FreedIsGone(h: Layout, i: nat, j: nat, m: nat, n: nat)
    requires LayoutOk(h) && Live(h, i, j) && Live(h, m, n) && (m != i || n != j)
    ensures h[m].cells[n] != h[i].cells[j]
  {}

  // ---------- Bytes ----------

  ghost predicate WritesInRegions(bytes: Bytes, bytes': Bytes, h: Layout) {
    forall a :: Byte(bytes', a) == Byte(bytes, a) || exists c :: c in Cells(h) && InRegion(c, a)
  }

  lemma SlotKept(bytes: Bytes, bytes': Bytes, h: Layout, d: Cell)
    requires LayoutOk(h) && d in Cells(h) && WritesInRegions(bytes, bytes', h)
    ensures Byte(bytes', UserPtr(d) - ALIGN_INFO) == Byte(bytes, UserPtr(d) - ALIGN_INFO)
  {}

  lemma PadsKept(bytes: Bytes, bytes': Bytes, h: Layout)
    requires LayoutOk(h) && PadsOk(bytes, h) && WritesInRegions(bytes, bytes', h)
    ensures PadsOk(bytes', h)
  {
    hide LayoutOk, WritesInRegions, UserPtr, Pad;
    forall i | 0 <= i < |h|
      ensures PadsIn(bytes', h[i])
    {
      forall j | 0 <= j < |h[i].cells|
        ensures PadOk(bytes', h[i].cells[j])
      {
        assert h[i].cells[j] in Cells(h) && PadsIn(bytes, h[i]);
        SlotKept(bytes, bytes', h, h[i].cells[j]);
      }
    }
  }

  /** Writing only inside user regions leaves the representation intact. */
  lemma BytesRepresents(r: Rep, h: Layout, bytes': Bytes)
    requires Represents(r, h) && WritesInRegions(r.bytes, bytes', h)
    ensures Represents(r.(bytes := bytes'), h)
  {
    hide LayoutOk, WritesInRegions, PadsOk, MajorsOk, MinorsOk, MappedOk, MajorItems;
    PadsKept(r.bytes, bytes', h);
  }

  lemma SlotFacts(r: Rep, h: Layout, i: nat, j: nat)
    requires Represents(r, h) && Live(h, i, j)
    ensures var c := h[i].cells[j];
            Byte(r.bytes, UserPtr(c) - ALIGN_INFO) == Pad(c) < PADDING && UserPtr(c) - Pad(c) - MINOR == c.addr
  {
    assert PadsIn(r.bytes, h[i]) && BlockOk(h[i]) && CellOk(h[i], h[i].cells[j]);
    UserRegionInsideCell(h[i].cells[j]);
  }
}
