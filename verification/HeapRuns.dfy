/** Every sequence of allocator calls, from the empty heap: what holds of the layout at
    each point. The calls of class Heap make these steps on the layout it represents. */
module HeapRuns {
  import opened HeapLayout
  import opened HeapSearch
  import opened HeapCells
  import opened HeapRealloc

  datatype Op = Malloc(best: int, req: int, page: int) | Free(i: nat, j: nat) | Shrink(i: nat, j: nat, size: int)

  ghost predicate Next(h: Layout, op: Op, h': Layout) {
    match op
    case Malloc(best, req, page) =>
      0 <= req && PageOffer(h, page, req + PADDING) && h' == MallocLayout(h, best, req, page)
    case Free(i, j) => Live(h, i, j) && h' == FreeLayout(h, i, j)
    case Shrink(i, j, size) =>
      Live(h, i, j) && 0 < size <= h[i].cells[j].req && h' == h[i := SetReq(h[i], j, size)]
  }

  ghost predicate Runs(run: seq<Layout>, ops: seq<Op>) {
    && |run| == |ops| + 1 && run[0] == []
    && forall k :: 0 <= k < |ops| ==> Next(run[k], ops[k], run[k + 1])
  }

  lemma NextOk(h: Layout, op: Op, h': Layout)
    requires LayoutOk(h) && NoneEmpty(h) && Next(h, op, h')
    ensures LayoutOk(h') && NoneEmpty(h')
  {
    hide LayoutOk, NoneEmpty, MallocLayout, FreeLayout, PageOffer;
    match op
    case Malloc(best, req, page) => MallocLayoutOk(h, best, req, page);
    case Free(i, j) => FreeLayoutOk(h, i, j);
    case Shrink(i, j, size) =>
      SetReqKeepsOk(h, i, j, size);
      SetReqKeeps(h, i, j, size);
  }

  lemma SetReqKeepsOk(h: Layout, i: nat, j: nat, size: int)
    requires LayoutOk(h) && Live(h, i, j) && 0 < size <= h[i].cells[j].req
    ensures LayoutOk(h[i := SetReq(h[i], j, size)])
  {
    SetReqOk(h[i], j, size);
    ReplaceOk(h, i, SetReq(h[i], j, size));
  }

  lemma {:induction false} RunOk(run: seq<Layout>, ops: seq<Op>, k: nat)
    requires Runs(run, ops) && k < |run|
    ensures LayoutOk(run[k]) && NoneEmpty(run[k])
  {
    if k > 0 {
      RunOk(run, ops, k - 1);
      NextOk(run[k - 1], ops[k - 1], run[k]);
    }
  }

  /** At every point of every run, each live region is aligned and lies inside its own
      minor, and no byte is in two of them. */
  lemma RegionsNeverOverlap(run: seq<Layout>, ops: seq<Op>, k: nat, c: Cell, d: Cell, a: int)
    requires Runs(run, ops) && k < |run| && c in Cells(run[k]) && d in Cells(run[k])
    ensures UserPtr(c) % ALIGNMENT == 0 && c.addr + MINOR <= UserPtr(c) && UserPtr(c) + c.req <= End(c)
    ensures InRegion(c, a) && InRegion(d, a) ==> c == d
  {
    hide LayoutOk, UserPtr, Cells;
    RunOk(run, ops, k);
    CellShape(run[k], c);
    if InRegion(c, a) {
      RegionsDisjoint(run[k], c, d, a);
    }
  }

  /** What realloc does to the layout is a step of these runs, or two: a free if the size is
      zero, a shrink if it fits, else a malloc and then a free. */
  lemma ReallocIsSteps(h: Layout, best: int, h': Layout, c: Cell, size: nat, page: int) returns (op: Op, mid: Layout)
    requires PageOffer(h, page, size + PADDING) && 0 <= c.req
    requires size == 0 ==> Freed(h, h', c)
    requires 0 < size <= c.req ==> Shrunk(h, h', c, size)
    requires size > c.req ==> Regrown(h, best, h', c, size, page)
    ensures if size > c.req then Next(h, Malloc(best, size, page), mid) else mid == h
    ensures Next(mid, op, h') && (if 0 < size <= c.req then op.Shrink? else op.Free?)
  {
    hide PageOffer, MallocLayout, FreeLayout;
    mid := if size > c.req then MallocLayout(h, best, size, page) else h;
    if 0 < size <= c.req {
      var i: nat, j: nat :| Live(h, i, j) && h[i].cells[j] == c && h' == h[i := SetReq(h[i], j, size)];
      op := Shrink(i, j, size);
    } else {
      var i: nat, j: nat :| Live(mid, i, j) && mid[i].cells[j] == c && h' == FreeLayout(mid, i, j);
      op := Free(i, j);
    }
  }
}
