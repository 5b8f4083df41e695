/** The allocator's state as a value, when it represents a layout, and how each
    way of placing and removing a minor carries that relation over. */
module HeapRep {
  import opened LinkedList
  import opened HeapLayout
  import opened HeapSearch
  import opened HeapMemory

  /** `mapped` records the regions obtained from the page hook and not yet given
      back, by base address, with their page counts. */
  datatype Rep = Rep(
    majors: Memory<Major>, minors: Memory<Minor>, bytes: Bytes,
    memRoot: int, bestBet: int, inuse: int, acquired: int, mapped: map<int, int>)

  ghost predicate MappedOk(mapped: map<int, int>, h: Layout) {
    && (forall i :: 0 <= i < |h| ==> h[i].base in mapped && mapped[h[i].base] == h[i].pages)
    && (forall a :: a in mapped ==> IndexOf(h, a) < |h|)
  }

  /** The headers, undo slots, root, hint, totals and page accounting all agree
      with the layout. */
  ghost predicate Represents(r: Rep, h: Layout) {
    && LayoutOk(h)
    && MajorsOk(r.majors, h) && MinorsOk(r.minors, h) && PadsOk(r.bytes, h)
    && r.memRoot == AddrOf(MajorItems(h), 0)
    && HintOk(h, r.bestBet)
    && r.inuse == InUse(h) && r.acquired == Allocated(h)
    && MappedOk(r.mapped, h)
  }

  // ---------- Reading headers ----------

  lemma LayoutOfRep(r: Rep, h: Layout)
    requires Represents(r, h)
    ensures LayoutOk(h)
  {
  }

  lemma {:induction false} TotalsOfRep(r: Rep, h: Layout)
    requires Represents(r, h)
    ensures r.inuse == InUse(h) && r.acquired == Allocated(h) && HintOk(h, r.bestBet)
  {
  }

  /** What the header of major i says. */
  lemma MajorFacts(r: Rep, h: Layout, i: nat)
    requires Represents(r, h) && i < |h|
    ensures h[i].base in r.majors && 0 < h[i].base
    ensures var m := r.majors[h[i].base];
            && m.data == MajorItem(h[i]).data && m.data.size - m.data.usage == Spare(h[i])
            && m.prev == (if i > 0 then h[i - 1].base else 0)
            && m.next == (if i + 1 < |h| then h[i + 1].base else 0)
            && (m.data.first == 0 <==> h[i].cells == [])
    ensures i + 1 < |h| ==> 0 < h[i + 1].base
  {
    var s := MajorItems(h);
    assert s[i].addr in r.majors && r.majors[s[i].addr] == NodeAt(s, i);
    assert BlockOk(h[i]);
    assert h[i].cells != [] ==> CellOk(h[i], h[i].cells[0]);
  }

  lemma MinorHeader(minors: Memory<Minor>, b: Block, j: nat)
    requires Holds(minors, MinorItems(b)) && j < |b.cells|
    ensures b.cells[j].addr in minors
    ensures minors[b.cells[j].addr] ==
            Node(AddrAt(b, j - 1), AddrAt(b, j + 1), MinorItem(b.base, b.cells[j]).data)
  {
    var s := MinorItems(b);
    assert s[j].addr in minors && minors[s[j].addr] == NodeAt(s, j);
  }

  /** What the header of minor j of major i says. */
  lemma MinorFacts(r: Rep, h: Layout, i: nat, j: nat)
    requires Represents(r, h) && Live(h, i, j)
    ensures 0 < h[i].cells[j].addr && h[i].cells[j].addr in r.minors
    ensures r.minors[h[i].cells[j].addr] ==
            Node(AddrAt(h[i], j - 1), AddrAt(h[i], j + 1), MinorItem(h[i].base, h[i].cells[j]).data)
  {
    assert 0 < h[i].cells[j].addr by { assert BlockOk(h[i]) && CellOk(h[i], h[i].cells[j]); }
    hide Holds, BlockOk, MappedOk, MajorsOk, PadsOk, MinorItem;
    MinorHeader(r.minors, h[i], j);
  }

  /** The hook handed out exactly this region and has not had it back. */
  lemma MappedFacts(r: Rep, h: Layout, i: nat)
    requires Represents(r, h) && i < |h|
    ensures h[i].base in r.mapped && r.mapped[h[i].base] == h[i].pages
  {
  }

  lemma RootFacts(r: Rep, h: Layout)
    requires Represents(r, h)
    ensures r.memRoot == if h == [] then 0 else h[0].base
    ensures r.memRoot == 0 <==> h == []
    ensures h == [] ==> r.bestBet == 0
  {}

  /** A gap large enough for a header starts at no existing header of its block. */
  lemma GapIsAway(r: Rep, h: Layout, i: nat, j: nat, size: int)
    requires Represents(r, h) && i < |h| && Fits(h[i], j, size + MINOR) && 0 <= size
    ensures 0 < GapStart(h[i], j)
    ensures 0 < j ==> h[i].cells[j - 1].addr < GapStart(h[i], j)
    ensures j < |h[i].cells| ==> GapStart(h[i], j) < h[i].cells[j].addr
  {
    assert BlockOk(h[i]);
    assert j > 0 ==> CellOk(h[i], h[i].cells[j - 1]);
  }

  /** The hint may move to any major. */
  lemma HintRepresents(r: Rep, h: Layout, i: nat)
    requires Represents(r, h) && i < |h|
    ensures Represents(r.(bestBet := h[i].base), h)
    ensures HintSpare(h, h[i].base) == Spare(h[i])
  {
    hide MajorsOk, MinorsOk, PadsOk, MappedOk, InUse, Allocated, Spare, MajorItems;
    IndexOfBase(h, i);
  }

  lemma {:induction false} HintFacts(r: Rep, h: Layout)
    requires Represents(r, h)
    ensures r.bestBet != 0 ==>
              var i := IndexOf(h, r.bestBet);
              i < |h| && h[i].base == r.bestBet && Spare(h[i]) == HintSpare(h, r.bestBet)
    ensures 0 <= HintSpare(h, r.bestBet)
  {
    if r.bestBet != 0 {
      RoomNeedsSpare(h[IndexOf(h, r.bestBet)], 0);
    }
  }

  /** A major with less free space than needed has no gap that fits. */
  lemma PruneSound(r: Rep, h: Layout, i: nat, need: int)
    requires Represents(r, h) && i < |h|
    ensures Spare(h[i]) < need ==> !Roomy(h[i], need)
    ensures 0 <= Spare(h[i])
  {
    RoomyIsHasRoom(h[i], need);
    RoomNeedsSpare(h[i], need);
  }

  // ---------- Placing ----------

  lemma SameBases(h: Layout, i: nat, b: Block, a: int)
    requires i < |h| && b.base == h[i].base
    ensures IndexOf(h[i := b], a) == IndexOf(h, a)
  {
    var h' := h[i := b];
    var k, k' := IndexOf(h, a), IndexOf(h', a);
    assert k < |h| ==> h'[k].base == a;
    assert k' < |h| ==> h[k'].base == a;
  }

  lemma ReplaceMapped(mapped: map<int, int>, h: Layout, i: nat, b: Block)
    requires i < |h| && b.base == h[i].base && b.pages == h[i].pages && MappedOk(mapped, h)
    ensures MappedOk(mapped, h[i := b])
  {
    forall a
      ensures IndexOf(h[i := b], a) == IndexOf(h, a)
    {
      SameBases(h, i, b, a);
    }
  }

  lemma ReplaceRoot(h: Layout, i: nat, b: Block)
    requires i < |h| && b.base == h[i].base
    ensures AddrOf(MajorItems(h[i := b]), 0) == AddrOf(MajorItems(h), 0)
  {}

  lemma LinkStaysInside(minors: Memory<Minor>, minors': Memory<Minor>, b: Block, j: nat, c: Cell)
    requires BlockOk(b) && j <= |b.cells| && BlockOk(Insert(b, j, c))
    requires Linked(minors, minors', MinorItems(b), j, MinorItem(b.base, c))
    ensures SameOutside(minors, minors', b.base, Limit(b))
  {
    assert CellOk(Insert(b, j, c), Insert(b, j, c).cells[j]);
    assert j > 0 ==> CellOk(b, b.cells[j - 1]);
    assert j < |b.cells| ==> CellOk(b, b.cells[j]);
    hide BlockOk;
  }

  lemma PlaceMinors(minors: Memory<Minor>, minors': Memory<Minor>, h: Layout, i: nat, j: nat, size: int, req: int)
    requires LayoutOk(h) && MinorsOk(minors, h) && i < |h| && Fits(h[i], j, size + MINOR)
    requires 0 <= req && req + PADDING <= size
    requires Linked(minors, minors', MinorItems(h[i]), j, MinorItem(h[i].base, Cell(GapStart(h[i], j), size, req)))
    ensures MinorsOk(minors', Place(h, i, j, size, req))
  {
    var b, c := h[i], Cell(GapStart(h[i], j), size, req);
    hide Holds, BlockOk, MinorItems, Linked;
    InsertOk(b, j, size, req);
    assert Holds(minors, MinorItems(b));
    InsertMinors(minors, minors', b, j, c);
    LinkStaysInside(minors, minors', b, j, c);
    ReplaceMinors(minors, minors', h, i, Insert(b, j, c));
  }

  /** Everything a placement writes besides the minor links. */
  function Commit(r: Rep, maj: int, min: int, first: int, size: int): Rep
    requires maj in r.majors
  {
    var m := r.majors[maj];
    var p := Align(min + MINOR);
    r.(majors := r.majors[maj := m.(data := m.data.(usage := m.data.usage + size + MINOR, first := first))],
       inuse := r.inuse + size,
       bytes := r.bytes[p - ALIGN_INFO := p - (min + MINOR)])
  }

  lemma PlaceMajors(r: Rep, h: Layout, i: nat, j: nat, size: int, req: int)
    requires LayoutOk(h) && MajorsOk(r.majors, h) && i < |h| && j <= |h[i].cells|
    ensures h[i].base in r.majors
    ensures var min := GapStart(h[i], j);
            var first := if j == 0 then min else AddrAt(h[i], 0);
            MajorsOk(Commit(r, h[i].base, min, first, size).majors, Place(h, i, j, size, req))
  {
    hide MajorsOk, LayoutOk, Used, Payload;
    var c := Cell(GapStart(h[i], j), size, req);
    var b := Insert(h[i], j, c);
    MajorAt(r.majors, h, i);
    InsertTotals(h[i], j, c);
    ReplaceMajors(r.majors, h, i, b);
    assert AddrAt(b, 0) == if j == 0 then c.addr else AddrAt(h[i], 0);
  }

  /** Linking a new minor into a gap that holds it, and committing, represents the
      layout with that gap filled. */
  lemma PlaceRepresents(r: Rep, minors': Memory<Minor>, h: Layout, i: nat, j: nat, size: int, req: int)
    requires Represents(r, h) && i < |h| && Fits(h[i], j, size + MINOR)
    requires 0 <= req && req + PADDING <= size
    requires Linked(r.minors, minors', MinorItems(h[i]), j, MinorItem(h[i].base, Cell(GapStart(h[i], j), size, req)))
    ensures h[i].base in r.majors
    ensures var min := GapStart(h[i], j);
            var first := if j == 0 then min else AddrAt(h[i], 0);
            Represents(Commit(r.(minors := minors'), h[i].base, min, first, size), Place(h, i, j, size, req))
  {
    hide Holds, BlockOk, MappedOk, IndexOf, Used, Payload, MinorItems, MajorItems;
    var c := Cell(GapStart(h[i], j), size, req);
    var b := Insert(h[i], j, c);
    PlaceOk(h, i, j, size, req);
    PlaceMinors(r.minors, minors', h, i, j, size, req);
    PlaceMajors(r.(minors := minors'), h, i, j, size, req);
    PlacePads(r.bytes, h, i, j, size, req);
    InsertTotals(h[i], j, c);
    TotalsReplace(h, i, b);
    ReplaceMapped(r.mapped, h, i, b);
    ReplaceRoot(h, i, b);
    SameBases(h, i, b, r.bestBet);
  }

  // ---------- Removing a minor ----------

  lemma UnlinkStaysInside(minors: Memory<Minor>, minors': Memory<Minor>, b: Block, j: nat)
    requires BlockOk(b) && j < |b.cells|
    requires Unlinked(minors, minors', MinorItems(b), j)
    ensures SameOutside(minors, minors', b.base, Limit(b))
  {}

  /** Marking minor j dead and linking its neighbours to each other unlinks it. */
  lemma UnlinkFacts(r: Rep, h: Layout, i: nat, j: nat)
    requires Represents(r, h) && Live(h, i, j)
    ensures h[i].cells[j].addr in r.minors
    ensures var n := r.minors[h[i].cells[j].addr];
            var m := r.minors[h[i].cells[j].addr := n.(data := n.data.(magic := DEAD))];
            && (n.next != 0 ==> n.next in m) && (n.prev != 0 ==> n.prev in m)
            && Unlinked(r.minors, Bypass(m, n), MinorItems(h[i]), j)
  {
    hide Holds, MajorsOk, PadsOk, MappedOk, Distinct, Unlinked, Bypass;
    MinorFacts(r, h, i, j);
    MinorsDistinct(h[i]);
    var s := MinorItems(h[i]);
    assert Holds(r.minors, s);
    var n := r.minors[s[j].addr];
    BypassUnlinks(r.minors, n.data.(magic := DEAD), s, j);
  }

  lemma UnlinkMajorFacts(r: Rep, h: Layout, i: nat)
    requires Represents(r, h) && i < |h|
    ensures h[i].base in r.majors
    ensures var n := r.majors[h[i].base];
            && (n.next != 0 ==> n.next in r.majors) && (n.prev != 0 ==> n.prev in r.majors)
            && Unlinked(r.majors, Bypass(r.majors, n), MajorItems(h), i)
  {
    hide Holds, MinorsOk, PadsOk, MappedOk, Distinct, Unlinked, Bypass;
    MajorFacts(r, h, i);
    MajorsDistinct(h);
    var s := MajorItems(h);
    var n := r.majors[s[i].addr];
    assert r.majors[s[i].addr := n.(data := n.data)] == r.majors;
    BypassUnlinks(r.majors, n.data, s, i);
  }

  lemma RemoveMinorsOk(minors: Memory<Minor>, minors': Memory<Minor>, h: Layout, i: nat, j: nat)
    requires LayoutOk(h) && MinorsOk(minors, h) && Live(h, i, j)
    requires Unlinked(minors, minors', MinorItems(h[i]), j)
    ensures MinorsOk(minors', h[i := Remove(h[i], j)])
  {
    hide Holds, BlockOk, MinorItems, Unlinked;
    assert Holds(minors, MinorItems(h[i]));
    RemoveMinors(minors, minors', h[i], j);
    UnlinkStaysInside(minors, minors', h[i], j);
    ReplaceMinors(minors, minors', h, i, Remove(h[i], j));
  }

  /** What free writes besides the minor links. */
  function Uncommit(r: Rep, maj: int, first: int, size: int): Rep
    requires maj in r.majors
  {
    var m := r.majors[maj];
    r.(majors := r.majors[maj := m.(data := m.data.(usage := m.data.usage - (size + MINOR), first := first))],
       inuse := r.inuse - size)
  }

  lemma RemoveMajorsOk(r: Rep, h: Layout, i: nat, j: nat)
    requires LayoutOk(h) && MajorsOk(r.majors, h) && Live(h, i, j)
    ensures h[i].base in r.majors
    ensures var first := if j == 0 then AddrAt(h[i], 1) else AddrAt(h[i], 0);
            MajorsOk(Uncommit(r, h[i].base, first, h[i].cells[j].size).majors, h[i := Remove(h[i], j)])
  {
    hide MajorsOk, LayoutOk, Used, Payload;
    var b := Remove(h[i], j);
    MajorAt(r.majors, h, i);
    assert AddrAt(b, 0) == if j == 0 then AddrAt(h[i], 1) else AddrAt(h[i], 0);
    RemoveTotals(h[i], j);
    ReplaceMajors(r.majors, h, i, b);
  }

  lemma RemoveRepresents(r: Rep, minors': Memory<Minor>, h: Layout, i: nat, j: nat)
    requires Represents(r, h) && Live(h, i, j)
    requires Unlinked(r.minors, minors', MinorItems(h[i]), j)
    ensures h[i].base in r.majors
    ensures var first := if j == 0 then AddrAt(h[i], 1) else AddrAt(h[i], 0);
            Represents(Uncommit(r.(minors := minors'), h[i].base, first, h[i].cells[j].size),
                       h[i := Remove(h[i], j)])
  {
    hide Holds, BlockOk, MappedOk, IndexOf, Used, Payload, MinorItems, MajorItems;
    var b := Remove(h[i], j);
    RemoveOk(h[i], j);
    ReplaceOk(h, i, b);
    RemoveMinorsOk(r.minors, minors', h, i, j);
    RemoveMajorsOk(r.(minors := minors'), h, i, j);
    RemovePads(r.bytes, h, i, j);
    RemoveTotals(h[i], j);
    TotalsReplace(h, i, b);
    ReplaceMapped(r.mapped, h, i, b);
    ReplaceRoot(h, i, b);
    SameBases(h, i, b, r.bestBet);
  }

  // ---------- Dropping and adding a major ----------

  lemma {:induction false} IndexAfterDrop(h: Layout, i: nat, a: int)
    requires i < |h| && h[i].base != a
    ensures IndexOf(h, a) < |h| <==> IndexOf(h[..i] + h[i + 1..], a) < |h| - 1
  {
    var h' := h[..i] + h[i + 1..];
    assert h' == RemoveBlock(h, i);
    if IndexOf(h, a) < |h| {
      IndexKept(h, i, a);
    }
    if IndexOf(h', a) < |h'| {
      IndexWas(h, i, a);
    }
  }

  lemma {:induction false} IndexFound(h: Layout, a: int, k: nat)
    requires k < |h| && h[k].base == a
    ensures IndexOf(h, a) < |h|
  {}

  lemma {:induction false} IndexKept(h: Layout, i: nat, a: int)
    requires i < |h| && h[i].base != a && IndexOf(h, a) < |h|
    ensures IndexOf(RemoveBlock(h, i), a) < |h| - 1
  {
    var k := IndexOf(h, a);
    IndexFound(RemoveBlock(h, i), a, if k < i then k else k - 1);
  }

  lemma {:induction false} IndexWas(h: Layout, i: nat, a: int)
    requires i < |h| && IndexOf(RemoveBlock(h, i), a) < |h| - 1
    ensures IndexOf(h, a) < |h|
  {}

  function RemoveBlock(h: Layout, i: nat): Layout
    requires i < |h|
  {
    h[..i] + h[i + 1..]
  }

  lemma DropMapped(mapped: map<int, int>, h: Layout, i: nat)
    requires LayoutOk(h) && i < |h| && MappedOk(mapped, h)
    ensures MappedOk(mapped - {h[i].base}, h[..i] + h[i + 1..])
  {
    var h', m := h[..i] + h[i + 1..], mapped - {h[i].base};
    forall k | 0 <= k < |h'|
      ensures h'[k].base in m && m[h'[k].base] == h'[k].pages
    {
      var l := if k < i then k else k + 1;
      if l < i { BasesDistinct(h, l, i); } else { BasesDistinct(h, i, l); }
    }
    forall a | a in m
      ensures IndexOf(h', a) < |h'|
    {
      IndexAfterDrop(h, i, a);
    }
  }

  lemma DropRoot(h: Layout, i: nat)
    requires LayoutOk(h) && i < |h|
    ensures AddrOf(MajorItems(h[..i] + h[i + 1..]), 0) ==
            if AddrOf(MajorItems(h), 0) == h[i].base then AddrOf(MajorItems(h), i + 1) else AddrOf(MajorItems(h), 0)
  {}

  lemma DropOthers(r: Rep, h: Layout, i: nat)
    requires i < |h| && MinorsOk(r.minors, h) && PadsOk(r.bytes, h)
    ensures MinorsOk(r.minors, h[..i] + h[i + 1..]) && PadsOk(r.bytes, h[..i] + h[i + 1..])
  {}

  /** Unlinking an empty major and giving its pages back. */
  lemma DropRepresents(r: Rep, majors': Memory<Major>, h: Layout, i: nat)
    requires Represents(r, h) && i < |h| && h[i].cells == []
    requires Unlinked(r.majors, majors', MajorItems(h), i)
    ensures Represents(r.(majors := majors',
                          memRoot := if r.memRoot == h[i].base then AddrOf(MajorItems(h), i + 1) else r.memRoot,
                          bestBet := if r.bestBet == h[i].base then 0 else r.bestBet,
                          acquired := r.acquired - Size(h[i]),
                          mapped := r.mapped - {h[i].base}),
                       h[..i] + h[i + 1..])
  {
    hide LayoutOk, MajorsOk, MinorsOk, PadsOk, MappedOk, IndexOf, Unlinked, MajorItems, AddrOf;
    DropRoot(h, i);
    DropOk(h, i);
    DropMajors(r.majors, majors', h, i);
    DropOthers(r, h, i);
    TotalsRemove(h, i);
    DropMapped(r.mapped, h, i);
    if r.bestBet != h[i].base { IndexAfterDrop(h, i, r.bestBet); }
  }

  lemma AppendMapped(mapped: map<int, int>, h: Layout, b: Block)
    requires MappedOk(mapped, h) && (forall i :: 0 <= i < |h| ==> h[i].base != b.base)
    ensures MappedOk(mapped[b.base := b.pages], h + [b])
  {
    forall a | a in mapped
      ensures IndexOf(h + [b], a) < |h| + 1
    {
      IndexAfterAppend(h, b, a);
    }
    assert (h + [b])[|h|].base == b.base;
  }

  lemma {:induction false} IndexAfterAppend(h: Layout, b: Block, a: int)
    requires IndexOf(h, a) < |h|
    ensures IndexOf(h + [b], a) == IndexOf(h, a)
  {
    assert (h + [b])[IndexOf(h, a)] == h[IndexOf(h, a)];
  }

  lemma AppendOthers(r: Rep, h: Layout, b: Block)
    requires MinorsOk(r.minors, h) && PadsOk(r.bytes, h) && b.cells == []
    ensures MinorsOk(r.minors, h + [b]) && PadsOk(r.bytes, h + [b])
  {}

  lemma {:induction false} AppendTotals(h: Layout, b: Block)
    requires b.cells == []
    ensures InUse(h + [b]) == InUse(h) && Allocated(h + [b]) == Allocated(h) + Size(b)
  {
    TotalsConcat(h, [b]);
  }

  lemma AppendRoot(h: Layout, b: Block)
    ensures AddrOf(MajorItems(h + [b]), 0) == if h == [] then b.base else AddrOf(MajorItems(h), 0)
  {
  }

  lemma AppendIsNew(h: Layout, b: Block)
    requires LayoutOk(h + [b])
    ensures forall i :: 0 <= i < |h| ==> h[i].base != b.base
  {
    forall i | 0 <= i < |h|
      ensures h[i].base != b.base
    {
      BasesDistinct(h + [b], i, |h|);
    }
  }

  /** Linking a fresh, empty major in at the end. */
  lemma AppendRepresents(r: Rep, majors': Memory<Major>, h: Layout, b: Block)
    requires Represents(r, h) && b.cells == [] && LayoutOk(h + [b])
    requires Linked(r.majors, majors', MajorItems(h), |h|, MajorItem(b))
    ensures Represents(r.(majors := majors',
                          memRoot := if h == [] then b.base else r.memRoot,
                          acquired := r.acquired + Size(b),
                          mapped := r.mapped[b.base := b.pages]),
                       h + [b])
  {
    hide LayoutOk, InUse, Allocated, MajorItem, MajorsOk, MinorsOk, PadsOk, MappedOk, IndexOf, Linked, MajorItems, AddrOf;
    AppendRoot(h, b);
    AppendIsNew(h, b);
    AppendOthers(r, h, b);
    AppendMajors(r.majors, majors', h, b);
    AppendTotals(h, b);
    AppendMapped(r.mapped, h, b);
    if r.bestBet != 0 { IndexAfterAppend(h, b, r.bestBet); }
  }

  // ---------- Shrinking a request in place ----------

  lemma SetReqMinors(minors: Memory<Minor>, h: Layout, i: nat, j: nat, req: int)
    requires LayoutOk(h) && MinorsOk(minors, h) && Live(h, i, j) && h[i].cells[j].addr in minors
    ensures var a := h[i].cells[j].addr;
            MinorsOk(minors[a := minors[a].(data := minors[a].data.(req := req))], h[i := SetReq(h[i], j, req)])
  {
    var b, a := h[i], h[i].cells[j].addr;
    var s := MinorItems(b);
    assert Holds(minors, s) && minors[s[j].addr] == NodeAt(s, j);
    assert CellOk(b, b.cells[j]);
    hide Holds, BlockOk;
    MinorsDistinct(b);
    var d := minors[a].data.(req := req);
    UpdateHolds(minors, s, j, d);
    assert MinorItems(SetReq(b, j, req)) == s[j := Item(a, d)];
    ReplaceMinors(minors, minors[a := minors[a].(data := d)], h, i, SetReq(b, j, req));
  }

  lemma SetReqOthers(r: Rep, h: Layout, i: nat, j: nat, req: int)
    requires Live(h, i, j)
    ensures MajorsOk(r.majors, h) ==> MajorsOk(r.majors, h[i := SetReq(h[i], j, req)])
    ensures PadsOk(r.bytes, h) ==> PadsOk(r.bytes, h[i := SetReq(h[i], j, req)])
  {
    hide Holds, BlockOk, Used;
    var b := SetReq(h[i], j, req);
    SetReqTotals(h[i], j, req);
    assert MajorItem(b) == MajorItem(h[i]);
    assert MajorItems(h[i := b]) == MajorItems(h);
    if PadsOk(r.bytes, h) {
      forall k | 0 <= k < |b.cells|
        ensures PadOk(r.bytes, b.cells[k])
      {
        assert PadsIn(r.bytes, h[i]) && PadOk(r.bytes, h[i].cells[k]);
      }
    }
  }

  /** realloc to no more than the requested size only rewrites that size. */
  lemma SetReqRepresents(r: Rep, h: Layout, i: nat, j: nat, req: int)
    requires Represents(r, h) && Live(h, i, j) && 0 <= req <= h[i].cells[j].req
    ensures h[i].cells[j].addr in r.minors
    ensures var a := h[i].cells[j].addr;
            Represents(r.(minors := r.minors[a := r.minors[a].(data := r.minors[a].data.(req := req))]),
                       h[i := SetReq(h[i], j, req)])
  {
    hide Holds, BlockOk, MappedOk, IndexOf, Used, Payload, MinorItems, MajorItems, PadsOk;
    var b := SetReq(h[i], j, req);
    MinorFacts(r, h, i, j);
    SetReqOk(h[i], j, req);
    ReplaceOk(h, i, b);
    SetReqMinors(r.minors, h, i, j, req);
    SetReqOthers(r, h, i, j, req);
    SetReqTotals(h[i], j, req);
    TotalsReplace(h, i, b);
    ReplaceMapped(r.mapped, h, i, b);
    ReplaceRoot(h, i, b);
    SameBases(h, i, b, r.bestBet);
  }
}
