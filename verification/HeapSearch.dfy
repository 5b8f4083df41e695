/** Where malloc places a request and what malloc and free do to a layout. The
    search order is the source's: from the best bet to the last major, then once
    more from the root; in a major, the first gap in address order. */
module HeapSearch {
  import opened Machine
  import opened HeapLayout

  // ---------- First fit ----------

  /** The first gap of b, from gap j on, that holds `need` bytes; |b.cells| + 1 if none. */
  function FirstGap(b: Block, need: int, j: nat): (k: nat)
    requires j <= |b.cells| + 1
    ensures j <= k <= |b.cells| + 1
    ensures k <= |b.cells| ==> Fits(b, k, need)
    ensures forall l: nat :: j <= l < k ==> !Fits(b, l, need)
    decreases |b.cells| + 1 - j
  {
    if j > |b.cells| || Gap(b, j) >= need then j else FirstGap(b, need, j + 1)
  }

  predicate Roomy(b: Block, need: int) {
    FirstGap(b, need, 0) <= |b.cells|
  }

  lemma RoomyIsHasRoom(b: Block, need: int)
    ensures Roomy(b, need) <==> HasRoom(b, need)
  {}

  /** The first block from i on with room; |h| if none. */
  function FirstBlock(h: Layout, need: int, i: nat): (k: nat)
    requires i <= |h|
    ensures i <= k <= |h|
    ensures k < |h| ==> Roomy(h[k], need)
    ensures forall l :: i <= l < k ==> !Roomy(h[l], need)
    decreases |h| - i
  {
    if i == |h| || Roomy(h[i], need) then i else FirstBlock(h, need, i + 1)
  }

  datatype Spot = Nowhere | At(block: nat, gap: nat)

  function Placement(h: Layout, need: int, start: nat): (s: Spot)
    requires start <= |h|
    ensures SpotFits(h, s, need)
  {
    var i := FirstBlock(h, need, start);
    if i < |h| then At(i, FirstGap(h[i], need, 0)) else
    var k := FirstBlock(h, need, 0);
    if k < |h| then At(k, FirstGap(h[k], need, 0)) else Nowhere
  }

  /** The search is complete: it fails exactly when no front, inner or tail gap of any
      block can hold the request. */
  lemma PlacementComplete(h: Layout, need: int, start: nat)
    requires start <= |h|
    ensures Placement(h, need, start).Nowhere? <==> forall i :: 0 <= i < |h| ==> !HasRoom(h[i], need)
  {}

  ghost predicate NoRoom(h: Layout, lo: int, hi: int, need: int) {
    forall k :: 0 <= k < |h| && lo <= k < hi ==> !Roomy(h[k], need)
  }

  /** A scan from `start`, restarted once from 0, that stops at the first block with
      room has found the placement. */
  lemma {:induction false} PlacementIs(h: Layout, need: int, start: nat, i: nat)
    requires start <= |h| && i < |h| && Roomy(h[i], need)
    requires (start <= i && NoRoom(h, start, i, need)) || (NoRoom(h, start, |h|, need) && NoRoom(h, 0, i, need))
    ensures Placement(h, need, start) == At(i, FirstGap(h[i], need, 0))
  {}

  lemma PlacementNone(h: Layout, need: int, start: nat)
    requires start <= |h| && NoRoom(h, 0, |h|, need)
    ensures Placement(h, need, start) == Nowhere
  {
  }

  // ---------- The best bet ----------

  function IndexOf(h: Layout, base: int): (i: nat)
    ensures i <= |h|
    ensures i < |h| ==> h[i].base == base
    ensures forall k :: 0 <= k < i ==> h[k].base != base
  {
    if h == [] || h[0].base == base then 0 else 1 + IndexOf(h[1..], base)
  }

  ghost predicate HintOk(h: Layout, best: int) {
    best == 0 || IndexOf(h, best) < |h|
  }

  /** The search starts at the best bet only if it has strictly more free bytes
      than the request needs. */
  function Start(h: Layout, best: int, need: int): (i: nat)
    ensures i <= |h|
  {
    if FromBet(h, best, need) then IndexOf(h, best) else 0
  }

  predicate FromBet(h: Layout, best: int, need: int) {
    var k := IndexOf(h, best);
    best != 0 && k < |h| && Spare(h[k]) > need
  }

  function HintSpare(h: Layout, best: int): int {
    var k := IndexOf(h, best);
    if best != 0 && k < |h| then Spare(h[k]) else 0
  }

  /** The hint after a look at block i: it goes to a block with more free bytes. */
  function Better(h: Layout, best: int, i: nat): int
    requires i < |h|
  {
    if HintSpare(h, best) < Spare(h[i]) then h[i].base else best
  }

  /** After a look at blocks i to n - 1. */
  function Scanned(h: Layout, best: int, i: nat, n: nat): int
    requires i <= n <= |h|
    decreases n
  {
    if i == n then best else Better(h, Scanned(h, best, i, n - 1), n - 1)
  }

  /** After a search: up to the block it ends at, or to the last; from the root again if it
      started at the best bet and found nothing. */
  function SearchHint(h: Layout, best: int, need: int): int {
    var start := Start(h, best, need);
    var i, k := FirstBlock(h, need, start), FirstBlock(h, need, 0);
    if i < |h| then Scanned(h, best, start, i + 1) else
    var once := Scanned(h, best, start, |h|);
    if FromBet(h, best, need) then Scanned(h, once, 0, if k < |h| then k + 1 else |h|) else once
  }

  /** A scan leaves the hint at a block with the most free bytes of those it looked at and
      where it was before. */
  lemma {:induction false} ScannedIs(h: Layout, best: int, i: nat, n: nat, k: nat)
    requires LayoutOk(h) && HintOk(h, best) && i <= n <= |h|
    ensures HintOk(h, Scanned(h, best, i, n)) && HintSpare(h, best) <= HintSpare(h, Scanned(h, best, i, n))
    ensures i <= k < n ==> Spare(h[k]) <= HintSpare(h, Scanned(h, best, i, n))
    decreases n
  {
    if i < n {
      ScannedIs(h, best, i, n - 1, k);
      IndexOfBase(h, n - 1);
    }
  }

  lemma {:induction false} IndexOfBase(h: Layout, i: nat)
    requires LayoutOk(h) && i < |h|
    ensures 0 < h[i].base && IndexOf(h, h[i].base) == i
  {
    assert BlockOk(h[i]);
    var k := IndexOf(h, h[i].base);
    if k < i { BasesDistinct(h, k, i); }
  }

  /** So after a search that found no gap, no block has more free bytes than the hint. */
  lemma {:induction false} HintIsLargest(h: Layout, best: int, need: int, k: nat)
    requires LayoutOk(h) && HintOk(h, best) && Placement(h, need, Start(h, best, need)).Nowhere? && k < |h|
    ensures Spare(h[k]) <= HintSpare(h, SearchHint(h, best, need))
  {
    var start := Start(h, best, need);
    ScannedIs(h, best, start, |h|, k);
    ScannedIs(h, Scanned(h, best, start, |h|), 0, |h|, k);
  }

  lemma BasesDistinct(h: Layout, i: nat, k: nat)
    requires LayoutOk(h) && i < k < |h|
    ensures h[i].base != h[k].base
  {}

  // ---------- What malloc does to a layout ----------

  /** Pages requested from the hook for a payload of `size` bytes. */
  function PagesFor(size: int): (n: int)
    requires 0 <= size
    ensures 1 <= n
    ensures size + MAJOR + MINOR <= n * PAGE < size + MAJOR + MINOR + PAGE
  {
    var st := size + MAJOR + MINOR;
    var n := if st % PAGE == 0 then st / PAGE else st / PAGE + 1;
    if n < 1 then 1 else n
  }

  /** The page hook answers null or a region disjoint from all live blocks. */
  ghost predicate PageOffer(h: Layout, page: int, size: int)
    requires 0 <= size
  {
    page != 0 ==>
      && 0 < page
      && page + PagesFor(size) * PAGE <= U32
      && forall i :: 0 <= i < |h| ==> Apart(h[i], Block(page, PagesFor(size), []))
  }

  function NewBlock(page: int, size: int, req: int): Block
    requires 0 <= size
  {
    Block(page, PagesFor(size), [Cell(page + MAJOR, size, req)])
  }

  /** Put a new cell at the start of gap j of block i. */
  function Place(h: Layout, i: nat, j: nat, size: int, req: int): Layout
    requires i < |h| && j <= |h[i].cells|
  {
    h[i := Insert(h[i], j, Cell(GapStart(h[i], j), size, req))]
  }

  ghost predicate SpotFits(h: Layout, spot: Spot, need: int) {
    spot.At? ==> spot.block < |h| && Fits(h[spot.block], spot.gap, need)
  }

  function Outcome(h: Layout, spot: Spot, size: int, req: int, page: int): Layout
    requires 0 <= size && SpotFits(h, spot, size + MINOR)
  {
    match spot
    case At(i, j) => Place(h, i, j, size, req)
    case Nowhere => if page == 0 then h else h + [NewBlock(page, size, req)]
  }

  function MallocLayout(h: Layout, best: int, req: int, page: int): Layout
    requires 0 <= req
  {
    var need := req + PADDING + MINOR;
    Outcome(h, Placement(h, need, Start(h, best, need)), req + PADDING, req, page)
  }

  /** The new cell's coordinates in the result of MallocLayout. */
  function MallocSpot(h: Layout, best: int, req: int): (s: Spot)
    requires 0 <= req
    ensures s.At?
  {
    var need := req + PADDING + MINOR;
    var spot := Placement(h, need, Start(h, best, need));
    if spot.At? then spot else At(|h|, 0)
  }

  /** The hint after malloc. A new block is looked at as well, if it is the first, or if the
      last one had enough free bytes, though no gap. */
  function MallocHint(h: Layout, best: int, req: int, page: int): int
    requires 0 <= req
  {
    var need := req + PADDING + MINOR;
    if h == [] then (if page == 0 then best else page) else
    var hint := SearchHint(h, best, need);
    if page != 0 && Placement(h, need, Start(h, best, need)).Nowhere? && Spare(h[|h| - 1]) >= need
       && HintSpare(h, hint) < PagesFor(req + PADDING) * PAGE - MAJOR then page
    else hint
  }

  /** malloc adds the padded request to the one total, and a new block to the other. */
  lemma {:induction false} MallocTotals(h: Layout, best: int, req: int, page: int)
    requires 0 <= req
    ensures var h', need := MallocLayout(h, best, req, page), req + PADDING + MINOR;
            var nowhere := Placement(h, need, Start(h, best, need)).Nowhere?;
            && InUse(h') == InUse(h) + (if nowhere && page == 0 then 0 else req + 32)
            && Allocated(h') == Allocated(h) + (if nowhere && page != 0 then PagesFor(req + 32) * 4096 else 0)
  {
    hide Placement, Start;
    MallocCases(h, best, req, page);
    match Placement(h, req + PADDING + MINOR, Start(h, best, req + PADDING + MINOR))
    case At(i, j) => PlaceTotals(h, i, j, req + PADDING, req);
    case Nowhere =>
      if page != 0 {
        var b := NewBlock(page, req + PADDING, req);
        TotalsConcat(h, [b]);
        assert [b][1..] == [] && b.cells[1..] == [];
        assert Payload(b.cells) == b.cells[0].size + Payload(b.cells[1..]) && InUse([b]) == Payload(b.cells) + InUse([b][1..]);
      }
  }

  lemma {:induction false} PlaceTotals(h: Layout, i: nat, j: nat, size: int, req: int)
    requires i < |h| && j <= |h[i].cells|
    ensures InUse(Place(h, i, j, size, req)) == InUse(h) + size && Allocated(Place(h, i, j, size, req)) == Allocated(h)
  {
    var cells, c := h[i].cells, Cell(GapStart(h[i], j), size, req);
    TotalsReplace(h, i, Insert(h[i], j, c));
    assert cells == cells[..j] + cells[j..];
    UsedConcat(cells[..j], cells[j..]);
    UsedConcat(cells[..j], [c] + cells[j..]);
    UsedConcat([c], cells[j..]);
    assert Insert(h[i], j, c).cells == cells[..j] + ([c] + cells[j..]);
  }

  /** The layout and the new cell, by cases of the search's answer. */
  lemma MallocCases(h: Layout, best: int, req: int, page: int)
    requires 0 <= req
    ensures var size := req + PADDING;
            var h' := MallocLayout(h, best, req, page);
            var s := MallocSpot(h, best, req);
            match Placement(h, size + MINOR, Start(h, best, size + MINOR))
            case At(i, j) =>
              && h' == Place(h, i, j, size, req) && s == At(i, j)
              && Live(h', i, j) && h'[i].cells[j] == Cell(GapStart(h[i], j), size, req)
            case Nowhere =>
              if page == 0 then h' == h else
              && h' == h + [NewBlock(page, size, req)] && s == At(|h|, 0)
              && Live(h', |h|, 0) && h'[|h|].cells[0] == Cell(page + MAJOR, size, req)
  {
  }

  lemma AppendOk(h: Layout, b: Block)
    requires LayoutOk(h) && BlockOk(b)
    requires forall i :: 0 <= i < |h| ==> Apart(h[i], b)
    ensures LayoutOk(h + [b])
  {}

  /** Placing into a freshly appended empty block. */
  lemma PlaceInNew(h: Layout, page: int, size: int, req: int)
    requires LayoutOk(h) && 0 <= req && req + PADDING <= size
    requires page != 0 && PageOffer(h, page, size)
    ensures var b := Block(page, PagesFor(size), []);
            && LayoutOk(h + [b]) && Fits(b, 0, size + MINOR)
            && Place(h + [b], |h|, 0, size, req) == h + [NewBlock(page, size, req)]
  {
    var b := Block(page, PagesFor(size), []);
    AppendOk(h, b);
    assert (h + [b])[|h| := NewBlock(page, size, req)] == h + [NewBlock(page, size, req)];
    assert Insert(b, 0, Cell(page + MAJOR, size, req)) == NewBlock(page, size, req);
  }

  lemma PlaceOk(h: Layout, i: nat, j: nat, size: int, req: int)
    requires LayoutOk(h) && i < |h| && Fits(h[i], j, size + MINOR)
    requires 0 <= req && req + PADDING <= size
    ensures LayoutOk(Place(h, i, j, size, req))
    ensures NoneEmpty(h) ==> NoneEmpty(Place(h, i, j, size, req))
  {
    InsertOk(h[i], j, size, req);
    ReplaceOk(h, i, Insert(h[i], j, Cell(GapStart(h[i], j), size, req)));
  }

  lemma GrowOk(h: Layout, page: int, size: int, req: int)
    requires LayoutOk(h) && 0 <= req && req + PADDING <= size
    requires page != 0 && PageOffer(h, page, size)
    ensures LayoutOk(h + [NewBlock(page, size, req)])
    ensures NoneEmpty(h) ==> NoneEmpty(h + [NewBlock(page, size, req)])
  {}

  lemma OutcomeOk(h: Layout, spot: Spot, size: int, req: int, page: int)
    requires LayoutOk(h) && NoneEmpty(h) && 0 <= req && req + PADDING <= size
    requires SpotFits(h, spot, size + MINOR) && PageOffer(h, page, size)
    ensures LayoutOk(Outcome(h, spot, size, req, page))
    ensures NoneEmpty(Outcome(h, spot, size, req, page))
  {
    if spot.At? {
      PlaceOk(h, spot.block, spot.gap, size, req);
    } else if page != 0 {
      GrowOk(h, page, size, req);
    }
  }

  /** malloc keeps the layout well formed and without empty blocks. */
  lemma MallocLayoutOk(h: Layout, best: int, req: int, page: int)
    requires LayoutOk(h) && NoneEmpty(h) && 0 <= req
    requires PageOffer(h, page, req + PADDING)
    ensures LayoutOk(MallocLayout(h, best, req, page))
    ensures NoneEmpty(MallocLayout(h, best, req, page))
  {
    var need := req + PADDING + MINOR;
    OutcomeOk(h, Placement(h, need, Start(h, best, need)), req + PADDING, req, page);
  }

  // ---------- What free does to a layout ----------

  function FreeLayout(h: Layout, i: nat, j: nat): Layout
    requires i < |h| && j < |h[i].cells|
  {
    if |h[i].cells| == 1 then h[..i] + h[i + 1..] else h[i := Remove(h[i], j)]
  }

  /** The hint after free: it goes to the block freed into if that has more free bytes, in
      32-bit signed arithmetic, and is lost with its block. */
  function FreeHint(h: Layout, best: int, i: nat, j: nat): int
    requires i < |h| && j < |h[i].cells|
  {
    if |h[i].cells| == 1 then (if best == h[i].base then 0 else best) else
    var h' := h[i := Remove(h[i], j)];
    if best != 0 && Signed32(Spare(h'[i])) > Signed32(HintSpare(h', best)) then h[i].base else best
  }

  /** Then the hint, if there is one, has at least as many free bytes as the block freed into,
      if no block has 2 GiB of them. */
  lemma FreeHintIs(h: Layout, best: int, i: nat, j: nat)
    requires LayoutOk(h) && HintOk(h, best) && Live(h, i, j) && |h[i].cells| > 1 && best != 0
    requires var h' := h[i := Remove(h[i], j)];
             LayoutOk(h') && forall k :: 0 <= k < |h'| ==> 0 <= Spare(h'[k]) < U32 / 2
    ensures var h', hint := h[i := Remove(h[i], j)], FreeHint(h, best, i, j);
            Spare(h'[i]) <= HintSpare(h', hint) && HintSpare(h', best) <= HintSpare(h', hint)
  {
    hide LayoutOk, Spare, Remove, Signed32, IndexOf;
    var h' := h[i := Remove(h[i], j)];
    SameBases(h, h', i, best);
    IndexOfBase(h', i);
    var k := IndexOf(h', best);
    SmallSigned(Spare(h'[i]));
    SmallSigned(Spare(h'[k]));
  }

  lemma SmallSigned(x: int)
    requires 0 <= x < U32 / 2
    ensures Signed32(x) == x
  {}

  /** Only the cells of block i differ, so bases are found where they were. */
  lemma {:induction false} SameBases(h: Layout, h': Layout, i: nat, best: int)
    requires LayoutOk(h) && HintOk(h, best) && best != 0 && i < |h| == |h'| && h' == h[i := h'[i]]
    requires exists j: nat :: j < |h[i].cells| && h'[i] == Remove(h[i], j)
    ensures h'[i].base == h[i].base && IndexOf(h', best) < |h'|
  {
    hide LayoutOk;
    assert forall k :: 0 <= k < |h| ==> h'[k].base == h[k].base;
  }

  /** free takes its cell off the one total, and an emptied block off the other. */
  lemma {:induction false} FreeTotals(h: Layout, i: nat, j: nat)
    requires Live(h, i, j)
    ensures var h' := FreeLayout(h, i, j);
            && InUse(h') == InUse(h) - h[i].cells[j].size
            && Allocated(h') == Allocated(h) - (if |h[i].cells| == 1 then h[i].pages * 4096 else 0)
  {
    hide InUse, Allocated, Payload;
    PayloadOf(h[i].cells, j);
    if |h[i].cells| == 1 {
      TotalsRemove(h, i);
      PayloadNone(h[i].cells[..j] + h[i].cells[j + 1..]);
    } else {
      TotalsReplace(h, i, Remove(h[i], j));
    }
  }

  lemma {:induction false} PayloadNone(cells: seq<Cell>)
    requires |cells| == 0
    ensures Payload(cells) == 0
  {}

  lemma {:induction false} PayloadOf(cells: seq<Cell>, j: nat)
    requires j < |cells|
    ensures Payload(cells) == Payload(cells[..j] + cells[j + 1..]) + cells[j].size
  {
    assert cells == cells[..j] + ([cells[j]] + cells[j + 1..]);
    UsedConcat(cells[..j], [cells[j]] + cells[j + 1..]);
    UsedConcat([cells[j]], cells[j + 1..]);
    UsedConcat(cells[..j], cells[j + 1..]);
    assert Payload([cells[j]]) == cells[j].size + Payload([cells[j]][1..]);
  }

  lemma DropOk(h: Layout, i: nat)
    requires LayoutOk(h) && i < |h|
    ensures LayoutOk(h[..i] + h[i + 1..])
  {}

  lemma FreeLayoutOk(h: Layout, i: nat, j: nat)
    requires LayoutOk(h) && NoneEmpty(h) && Live(h, i, j)
    ensures LayoutOk(FreeLayout(h, i, j))
    ensures NoneEmpty(FreeLayout(h, i, j))
  {
    if |h[i].cells| == 1 {
      DropOk(h, i);
    } else {
      RemoveOk(h[i], j);
      ReplaceOk(h, i, Remove(h[i], j));
    }
  }

  lemma FreeUndoesPlace(h: Layout, i: nat, j: nat, size: int, req: int)
    requires NoneEmpty(h) && i < |h| && j <= |h[i].cells|
    ensures Live(Place(h, i, j, size, req), i, j)
    ensures FreeLayout(Place(h, i, j, size, req), i, j) == h
  {
    InsertThenRemove(h[i], j, Cell(GapStart(h[i], j), size, req));
    assert h[i].cells != [];
    assert Place(h, i, j, size, req)[i := h[i]] == h;
  }

  /** Freeing what malloc just placed restores the layout exactly. */
  lemma FreeUndoesMalloc(h: Layout, best: int, req: int, page: int)
    requires NoneEmpty(h) && 0 <= req
    requires MallocLayout(h, best, req, page) != h
    ensures var h' := MallocLayout(h, best, req, page);
            var s := MallocSpot(h, best, req);
            Live(h', s.block, s.gap) && FreeLayout(h', s.block, s.gap) == h
  {
    var size := req + PADDING;
    match Placement(h, size + MINOR, Start(h, best, size + MINOR)) {
      case At(i, j) =>
        FreeUndoesPlace(h, i, j, size, req);
      case Nowhere =>
        var h' := h + [NewBlock(page, size, req)];
        assert h'[..|h|] + h'[|h| + 1..] == h;
    }
  }
}
