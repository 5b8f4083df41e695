/** The kernel allocator itself: malloc, free and realloc over linked headers. The
    page hook's answer to the one request a call may make is the parameter `page`
    (0 when it has no memory). `H` is the layout the headers represent. */
module Allocator {
  import opened Machine
  import opened LinkedList
  import opened HeapLayout
  import opened HeapSearch
  import opened HeapMemory
  import opened HeapRep
  import opened HeapCells

  class Heap {
    var majors: Memory<Major>
    var minors: Memory<Minor>
    var bytes: Bytes
    var memRoot: int
    var bestBet: int
    var inuse: int
    var acquired: int
    var mapped: map<int, int>
    var warnings: int
    ghost var H: Layout

    function State(): Rep
      reads this
    {
      Rep(majors, minors, bytes, memRoot, bestBet, inuse, acquired, mapped)
    }

    /** Between calls the headers represent the layout and no major is empty. */
    ghost predicate Valid()
      reads this
    {
      Represents(State(), H) && NoneEmpty(H)
    }

    constructor ()
      ensures Valid() && H == []
    {
      majors, minors, bytes := map[], map[], map[];
      memRoot, bestBet, inuse, acquired, warnings := 0, 0, 0, 0, 0;
      mapped := map[];
      H := [];
    }

    // ---------- Placing a minor ----------

    /** The accounting shared by the placing cases, and ALIGN. */
    method Account(maj: int, min: int, first: int, size: int) returns (p: int)
      requires maj in majors
      modifies `majors, `bytes, `inuse
      ensures State() == Commit(old(State()), maj, min, first, size)
      ensures p == Align(min + MINOR)
    {
      var d := majors[maj].data;
      majors := majors[maj := majors[maj].(data := d.(usage := d.usage + size + MINOR, first := first))];
      inuse := inuse + size;
      p := min + MINOR + ALIGN_INFO;
      var diff := p % ALIGNMENT;
      if diff != 0 {
        diff := ALIGNMENT - diff;
        p := p + diff;
      }
      bytes := bytes[p - ALIGN_INFO := diff + ALIGN_INFO];
    }

    ghost predicate PlaceReady(maj: int, size: int, req: int, i: nat, j: nat)
      reads this
    {
      && Represents(State(), H) && i < |H| && maj == H[i].base
      && Fits(H[i], j, size + MINOR) && 0 <= req && req + PADDING <= size
    }

    /** The effect of a placement: one new cell, and one byte written, its undo slot. */
    twostate predicate Placed(p: int, size: int, req: int, i: nat, j: nat)
      requires i < |old(H)| && j <= |old(H)[i].cells|
      reads this
    {
      && Represents(State(), H)
      && H == Place(old(H), i, j, size, req)
      && var c := Cell(GapStart(old(H)[i], j), size, req);
         p == UserPtr(c) && bytes == old(bytes)[p - ALIGN_INFO := Pad(c)]
    }

    /** CASE 2: the block is brand new. */
    method PlaceFirst(maj: int, size: int, req: int, ghost i: nat) returns (p: int)
      requires PlaceReady(maj, size, req, i, 0) && H[i].cells == []
      modifies `majors, `minors, `bytes, `inuse, `H
      ensures Placed(p, size, req, i, 0)
    {
      hide Represents, Used;
      MajorFacts(State(), H, i);
      var min := maj + MAJOR;
      var linked := minors[min := Node(0, 0, Minor(maj, MAGIC, size, req))];
      PlaceRepresents(State(), linked, H, i, 0, size, req);
      minors := linked;
      p := Account(maj, min, min, size);
      H := Place(H, i, 0, size, req);
    }

    /** CASE 3: in front of the first minor. */
    method PlaceFront(maj: int, size: int, req: int, ghost i: nat) returns (p: int)
      requires PlaceReady(maj, size, req, i, 0) && H[i].cells != []
      modifies `majors, `minors, `bytes, `inuse, `H
      ensures Placed(p, size, req, i, 0)
    {
      hide Represents, Used;
      MajorFacts(State(), H, i);
      MinorFacts(State(), H, i, 0);
      GapIsAway(State(), H, i, 0, size);
      var min := maj + MAJOR;
      var first := majors[maj].data.first;
      var linked := minors[first := minors[first].(prev := min)];
      linked := linked[min := Node(0, first, Minor(maj, MAGIC, size, req))];
      PlaceRepresents(State(), linked, H, i, 0, size, req);
      minors := linked;
      p := Account(maj, min, min, size);
      H := Place(H, i, 0, size, req);
    }

    /** CASE 4.1: after the last minor. */
    method PlaceTail(maj: int, min: int, size: int, req: int, ghost i: nat, ghost j: nat) returns (p: int)
      requires PlaceReady(maj, size, req, i, j) && 0 < j == |H[i].cells|
      requires min == AddrAt(H[i], j - 1)
      modifies `majors, `minors, `bytes, `inuse, `H
      ensures Placed(p, size, req, i, j)
    {
      hide Represents, Used;
      MajorFacts(State(), H, i);
      MinorFacts(State(), H, i, j - 1);
      GapIsAway(State(), H, i, j, size);
      var newMin := min + MINOR + minors[min].data.size;
      var linked := minors[min := minors[min].(next := newMin)];
      linked := linked[newMin := Node(min, 0, Minor(maj, MAGIC, size, req))];
      PlaceRepresents(State(), linked, H, i, j, size, req);
      minors := linked;
      p := Account(maj, newMin, majors[maj].data.first, size);
      H := Place(H, i, j, size, req);
    }

    /** CASE 4.2: between two minors. */
    method PlaceBetween(maj: int, min: int, size: int, req: int, ghost i: nat, ghost j: nat) returns (p: int)
      requires PlaceReady(maj, size, req, i, j) && 0 < j < |H[i].cells|
      requires min == AddrAt(H[i], j - 1)
      modifies `majors, `minors, `bytes, `inuse, `H
      ensures Placed(p, size, req, i, j)
    {
      hide Represents, Used;
      MajorFacts(State(), H, i);
      MinorFacts(State(), H, i, j - 1);
      MinorFacts(State(), H, i, j);
      GapIsAway(State(), H, i, j, size);
      var newMin := min + MINOR + minors[min].data.size;
      var next := minors[min].next;
      var linked := minors[newMin := Node(min, next, Minor(maj, MAGIC, size, req))];
      linked := linked[next := linked[next].(prev := newMin)];
      linked := linked[min := linked[min].(next := newMin)];
      PlaceRepresents(State(), linked, H, i, j, size, req);
      minors := linked;
      p := Account(maj, newMin, majors[maj].data.first, size);
      H := Place(H, i, j, size, req);
    }

    // ---------- Searching ----------

    /** Cases 3 and 4: the first gap of a major, in address order, that holds `need`
        bytes. `min` is the minor before it, 0 for the gap in front. */
    method FindGap(maj: int, need: int, ghost i: nat) returns (found: bool, min: int, ghost j: nat)
      requires Represents(State(), H) && i < |H| && maj == H[i].base && H[i].cells != []
      ensures found <==> Roomy(H[i], need)
      ensures found ==> j == FirstGap(H[i], need, 0) && min == AddrAt(H[i], j - 1)
    {
      hide Represents, Used;
      MajorFacts(State(), H, i);
      j := 0;
      var first := majors[maj].data.first;
      var diff := first - maj - MAJOR;
      if diff >= need {
        return true, 0, 0;
      }
      min := first;
      MinorFacts(State(), H, i, 0);
      while min != 0
        invariant j <= |H[i].cells| && min == AddrAt(H[i], j)
        invariant min == 0 <==> j == |H[i].cells|
        invariant forall l: nat :: l <= j ==> !Fits(H[i], l, need)
        decreases |H[i].cells| - j
      {
        MinorFacts(State(), H, i, j);
        var next := minors[min].next;
        diff := (if next == 0 then maj + majors[maj].data.size else next) - min - MINOR - minors[min].data.size;
        j := j + 1;
        if j < |H[i].cells| { MinorFacts(State(), H, i, j); }
        if diff >= need {
          assert Fits(H[i], j, need);
          return true, min, j;
        }
        min := next;
      }
      found := false;
    }

    /** One major of the search: refresh the hint, prune by the total free count
        (case 1), else look for a gap. */
    method Visit(maj: int, need: int, size: int, ghost i: nat)
      returns (found: bool, min: int, full: bool, bestSize: int, ghost j: nat)
      requires Valid() && i < |H| && maj == H[i].base && size == HintSpare(H, bestBet)
      modifies `bestBet
      ensures Valid() && bestSize == HintSpare(H, bestBet) && size <= bestSize && Spare(H[i]) <= bestSize
      ensures bestBet == Better(H, old(bestBet), i)
      ensures found <==> Roomy(H[i], need)
      ensures found ==> j == FirstGap(H[i], need, 0) && min == AddrAt(H[i], j - 1)
      ensures full <==> Spare(H[i]) >= need
    {
      hide Represents, Spare, FirstGap, Roomy, IndexOf;
      MajorFacts(State(), H, i);
      PruneSound(State(), H, i, need);
      var diff := majors[maj].data.size - majors[maj].data.usage;
      bestSize := size;
      if bestSize < diff {
        HintRepresents(State(), H, i);
        bestBet, bestSize := maj, diff;
      }
      full := diff >= need;
      if full {
        found, min, j := FindGap(maj, need, i);
      } else {
        found, min, j := false, 0, 0;
      }
    }

    /** The search over the majors, from the best bet if it looks large enough, with
        one restart from the root. When nothing fits, `maj` is the last major, `full`
        tells which case ended the search, and the hint is a major with the most
        free memory of all. */
    method Search(need: int)
      returns (found: bool, maj: int, min: int, full: bool, bestSize: int, ghost i: nat, ghost j: nat)
      requires Valid() && H != []
      modifies `bestBet
      ensures Valid() && bestSize == HintSpare(H, bestBet) && bestBet == SearchHint(H, old(bestBet), need)
      ensures i < |H| && maj == H[i].base
      ensures var spot := Placement(H, need, Start(H, old(bestBet), need));
              if found then spot == At(i, j) && min == AddrAt(H[i], j - 1) else spot == Nowhere && i == |H| - 1
      ensures !found ==> forall k :: 0 <= k < |H| ==> Spare(H[k]) <= bestSize
      ensures !found ==> (full <==> Spare(H[i]) >= need)
    {
      hide Represents, Spare, FirstGap, Roomy, IndexOf, Placement, NoneEmpty, Scanning, Scanned, SearchHint, Better, Start;
      RootFacts(State(), H);
      HintFacts(State(), H);
      ghost var best, from := bestBet, bestBet;
      ScanBegins(H, bestBet, need);
      maj, bestSize := memRoot, 0;
      i := 0;
      var startedBet := false;
      if bestBet != 0 {
        MajorFacts(State(), H, IndexOf(H, bestBet));
        bestSize := majors[bestBet].data.size - majors[bestBet].data.usage;
        if bestSize > need {
          maj, startedBet := bestBet, true;
          i := IndexOf(H, bestBet);
        }
      }
      while true
        invariant Valid() && i < |H| && maj == H[i].base
        invariant bestSize == HintSpare(H, bestBet)
        invariant Scanning(H, best, need, i, startedBet, from, bestBet)
        invariant !startedBet ==> forall k :: 0 <= k < i ==> Spare(H[k]) <= bestSize
        decreases startedBet, |H| - i
      {
        MajorFacts(State(), H, i);
        ghost var hint := bestBet;
        found, min, full, bestSize, j := Visit(maj, need, bestSize, i);
        if found {
          ScanFound(H, best, need, i, startedBet, from, hint);
          return;
        }
        if majors[maj].next != 0 {
          ScanGoesOn(H, best, need, i, startedBet, from, hint);
          maj := majors[maj].next;
          i := i + 1;
        } else if startedBet {
          ScanRestarts(H, best, need, i, from, hint);
          maj, startedBet := memRoot, false;
          i, from := 0, bestBet;
        } else {
          ScanEnds(H, best, need, i, from, hint);
          return;
        }
      }
    }

    // ---------- malloc ----------

    /** allocate_new_page, linked in after the last major (or as the root). */
    method NewMajor(last: int, size: int, page: int)
      requires Represents(State(), H) && 0 <= size && page != 0
      requires H != [] ==> last == H[|H| - 1].base
      requires LayoutOk(H + [Block(page, PagesFor(size), [])])
      modifies `majors, `memRoot, `acquired, `mapped, `H
      ensures Represents(State(), H) && H == old(H) + [Block(page, PagesFor(size), [])]
      ensures mapped == old(mapped)[page := PagesFor(size)]
    {
      hide Represents, LayoutOk;
      var st := size + MAJOR + MINOR;
      st := if st % PAGE == 0 then st / PAGE else st / PAGE + 1;
      if st < 1 {
        st := 1;
      }
      assert st == PagesFor(size);
      ghost var b := Block(page, st, []);
      RootFacts(State(), H);
      if H != [] { MajorFacts(State(), H, |H| - 1); AppendIsNew(H, b); }
      var linked := majors[page := Node(0, 0, Major(st, st * PAGE, MAJOR, 0))];
      if memRoot != 0 {
        linked := linked[last := linked[last].(next := page)];
        linked := linked[page := linked[page].(prev := last)];
      }
      AppendRepresents(State(), linked, H, b);
      majors := linked;
      if memRoot == 0 {
        memRoot := page;
      }
      mapped := mapped[page := st];
      acquired := acquired + st * PAGE;
      H := H + [b];
    }

    /** Ask the hook for a major and place the request in it: the end of cases 1 and 5. */
    method Grow(last: int, size: int, req: int, page: int, rehint: bool) returns (p: int)
      requires Represents(State(), H) && 0 <= req && size == req + PADDING && PageOffer(H, page, size)
      requires H != [] ==> last == H[|H| - 1].base
      modifies this
      ensures Represents(State(), H)
      ensures page == 0 ==> p == 0 && State() == old(State()) && H == old(H) && warnings == old(warnings) + 1
      ensures page == 0 ==> bestBet == old(bestBet)
      ensures page != 0 ==>
                var c := Cell(page + MAJOR, size, req);
                && H == old(H) + [NewBlock(page, size, req)]
                && p == UserPtr(c) && bytes == old(bytes)[p - ALIGN_INFO := Pad(c)]
                && mapped == old(mapped)[page := PagesFor(size)]
                && bestBet == if rehint then page else old(bestBet)
    {
      hide Represents, LayoutOk, PageOffer, PagesFor, UserPtr, Pad, NewBlock, Insert, Used;
      if page == 0 {
        warnings := warnings + 1;
        return 0;
      }
      ghost var n := |H|;
      LayoutOfRep(State(), H);
      PlaceInNew(H, page, size, req);
      NewMajor(last, size, page);
      if rehint {
        HintRepresents(State(), H, n);
        bestBet := page;
      }
      p := PlaceFirst(page, size, req, n);
    }

    /** The body of malloc, by cases of where the search ends. */
    method MallocAt(req: int, page: int) returns (p: int, ghost spot: Spot)
      requires Valid() && 0 <= req && PageOffer(H, page, req + PADDING)
      modifies this
      ensures Represents(State(), H)
      ensures spot == Placement(old(H), req + PADDING + MINOR, Start(old(H), old(bestBet), req + PADDING + MINOR))
      ensures spot.At? ==> Placed(p, req + PADDING, req, spot.block, spot.gap) && mapped == old(mapped)
      ensures spot.Nowhere? && page == 0 ==> p == 0 && H == old(H) && bytes == old(bytes) && mapped == old(mapped)
      ensures spot.Nowhere? && page != 0 ==>
                var c := Cell(page + MAJOR, req + PADDING, req);
                && H == old(H) + [NewBlock(page, req + PADDING, req)]
                && p == UserPtr(c) && bytes == old(bytes)[p - ALIGN_INFO := Pad(c)]
                && mapped == old(mapped)[page := PagesFor(req + PADDING)]
      ensures bestBet == MallocHint(old(H), old(bestBet), req, page)
    {
      hide Represents, LayoutOk, PageOffer, Placement, Start, FirstGap, UserPtr, Pad, Spare, Used, PagesFor, NewBlock,
           Insert, GapStart, SearchHint;
      RootFacts(State(), H);
      var size := req + PADDING;
      if memRoot == 0 {
        PlacementNone(H, size + MINOR, Start(H, bestBet, size + MINOR));
        spot := Nowhere;
        p := Grow(0, size, req, page, true);
        return;
      }
      var found, maj, min, full, bestSize;
      ghost var i, j;
      found, maj, min, full, bestSize, i, j := Search(size + MINOR);
      if found {
        spot := At(i, j);
        p := PlaceAt(maj, min, size, req, i, j);
      } else {
        spot := Nowhere;
        p := Grow(maj, size, req, page, full && bestSize < PagesFor(size) * PAGE - MAJOR);
      }
    }

    /** malloc. The hook is asked exactly when no front, inner or tail gap of any major
        holds the request; null is returned exactly when it was asked and had nothing.
        Success adds one live cell, c, and writes one byte, c's undo slot. */
    method Malloc(req: int, page: int) returns (p: int, ghost c: Cell)
      requires Valid() && RequestOk(req) && PageOffer(H, page, req + PADDING)
      modifies this
      ensures Valid() && H == MallocLayout(old(H), old(bestBet), req, page)
      ensures p == 0 <==> page == 0 && NoGapAnywhere(old(H), req)
      ensures p == 0 ==> H == old(H) && bytes == old(bytes)
      ensures p != 0 ==>
                && c.req == req && p == UserPtr(c)
                && c !in Cells(old(H)) && Cells(H) == Cells(old(H)) + {c}
                && bytes == old(bytes)[p - ALIGN_INFO := Pad(c)]
                && var s := MallocSpot(old(H), old(bestBet), req);
                   Live(H, s.block, s.gap) && H[s.block].cells[s.gap] == c
      ensures mapped == if NoGapAnywhere(old(H), req) && page != 0
                        then old(mapped)[page := PagesFor(req + PADDING)] else old(mapped)
      ensures bestBet == MallocHint(old(H), old(bestBet), req, page)
      ensures inuse == old(inuse) + if p == 0 then 0 else req + 32
      ensures acquired == old(acquired) + if NoGapAnywhere(old(H), req) && page != 0 then PagesFor(req + 32) * 4096 else 0
    {
      hide Represents, LayoutOk, PageOffer, Placement, Start, UserPtr, Pad, MallocLayout, MallocSpot, HasRoom, Place,
           PagesFor, NewBlock, Cells, MallocHint, InUse, Allocated;
      LayoutOfRep(State(), H);
      PlacementComplete(H, req + PADDING + MINOR, Start(H, bestBet, req + PADDING + MINOR));
      MallocLayoutOk(H, bestBet, req, page);
      MallocCases(H, bestBet, req, page);
      if page != 0 || !NoGapAnywhere(H, req) {
        MallocAddsCell(H, bestBet, req, page);
      }
      ghost var s := MallocSpot(H, bestBet, req);
      ghost var spot;
      MallocTotals(H, bestBet, req, page);
      TotalsOfRep(State(), H);
      p, spot := MallocAt(req, page);
      TotalsOfRep(State(), H);
      c := if p == 0 then Cell(0, 0, 0) else H[s.block].cells[s.gap];
    }

    /** Which of the placing cases applies at the gap after `min`. */
    method PlaceAt(maj: int, min: int, size: int, req: int, ghost i: nat, ghost j: nat) returns (p: int)
      requires PlaceReady(maj, size, req, i, j) && H[i].cells != [] && min == AddrAt(H[i], j - 1)
      modifies `majors, `minors, `bytes, `inuse, `H
      ensures Placed(p, size, req, i, j)
    {
      hide Represents, Used;
      if j > 0 { MinorFacts(State(), H, i, j - 1); }
      if 0 < j < |H[i].cells| { MinorFacts(State(), H, i, j); }
      if min == 0 {
        p := PlaceFront(maj, size, req, i);
      } else if minors[min].next == 0 {
        p := PlaceTail(maj, min, size, req, i, j);
      } else {
        p := PlaceBetween(maj, min, size, req, i, j);
      }
    }

    // ---------- free ----------

    /** Unlink a minor and take it out of the totals. */
    method UnlinkMinor(min: int, ghost i: nat, ghost j: nat) returns (maj: int)
      requires Represents(State(), H) && Live(H, i, j) && min == H[i].cells[j].addr
      modifies `majors, `minors, `inuse, `H
      ensures Represents(State(), H) && H == old(H)[i := Remove(old(H)[i], j)] && maj == H[i].base
    {
      hide Represents, Used, Unlinked, Bypass;
      MajorFacts(State(), H, i);
      MinorFacts(State(), H, i, j);
      if j > 0 { MinorFacts(State(), H, i, j - 1); }
      UnlinkFacts(State(), H, i, j);
      var n := minors[min];
      maj := n.data.block;
      ghost var rep := State();
      minors := Bypass(minors[min := n.(data := n.data.(magic := DEAD))], n);
      RemoveRepresents(rep, minors, H, i, j);
      inuse := inuse - n.data.size;
      var d := majors[maj].data;
      majors := majors[maj := majors[maj].(data := d.(usage := d.usage - (n.data.size + MINOR),
                                                      first := if n.prev == 0 then n.next else d.first))];
      H := H[i := Remove(H[i], j)];
    }

    /** The hook takes a region back only once, and with the page count it gave out. */
    method HookFree(base: int, pages: int)
      requires base in mapped && mapped[base] == pages
      modifies `mapped
      ensures mapped == old(mapped) - {base}
    {
      mapped := mapped - {base};
    }

    /** Unlink an empty major and give its pages back. */
    method DropMajor(maj: int, ghost i: nat)
      requires Represents(State(), H) && i < |H| && maj == H[i].base && H[i].cells == []
      modifies `majors, `memRoot, `bestBet, `acquired, `mapped, `H
      ensures Represents(State(), H) && H == old(H)[..i] + old(H)[i + 1..]
      ensures mapped == old(mapped) - {maj} && bestBet == if old(bestBet) == maj then 0 else old(bestBet)
    {
      hide Represents, Used, Unlinked, Bypass;
      MajorFacts(State(), H, i);
      MappedFacts(State(), H, i);
      UnlinkMajorFacts(State(), H, i);
      var m := majors[maj];
      ghost var rep := State();
      majors := Bypass(majors, m);
      DropRepresents(rep, majors, H, i);
      if memRoot == maj {
        memRoot := m.next;
      }
      if bestBet == maj {
        bestBet := 0;
      }
      acquired := acquired - m.data.size;
      HookFree(maj, m.data.pages);
      H := H[..i] + H[i + 1..];
    }

    /** Move the hint if the major just freed into has more room, compared as the
        source does in 32-bit signed arithmetic. */
    method RefreshHint(maj: int, ghost i: nat)
      requires Represents(State(), H) && i < |H| && maj == H[i].base
      modifies `bestBet
      ensures Represents(State(), H)
      ensures bestBet == if old(bestBet) != 0 && Signed32(Spare(H[i])) > Signed32(HintSpare(H, old(bestBet)))
                         then maj else old(bestBet)
    {
      hide Represents, Used, IndexOf;
      MajorFacts(State(), H, i);
      HintFacts(State(), H);
      if bestBet != 0 {
        MajorFacts(State(), H, IndexOf(H, bestBet));
        var bestSize := Signed32(majors[bestBet].data.size - majors[bestBet].data.usage);
        var majSize := Signed32(majors[maj].data.size - majors[maj].data.usage);
        if majSize > bestSize {
          HintRepresents(State(), H, i);
          bestBet := maj;
        }
      }
    }

    /** free. The undo slot leads back to the header, whose magic is always intact. */
    method Free(ptr: int)
      requires Valid() && (ptr == 0 || exists c :: c in Cells(H) && UserPtr(c) == ptr)
      modifies this
      ensures Valid() && bytes == old(bytes)
      ensures ptr == 0 ==> H == old(H) && State() == old(State()) && warnings == old(warnings) + 1
      ensures forall i: nat, j: nat :: Live(old(H), i, j) && UserPtr(old(H)[i].cells[j]) == ptr && ptr != 0 ==>
                Freeing(old(State()), old(H), i, j, State(), H)
      ensures Cells(H) == set c | c in Cells(old(H)) && (ptr == 0 || UserPtr(c) != ptr)
    {
      hide Represents, LayoutOk, UserPtr, Pad, NoneEmpty, Remove, Spare, HintSpare, Freeing, FreeLayout;
      if ptr == 0 {
        warnings := warnings + 1;
        return;
      }
      ghost var c :| c in Cells(H) && UserPtr(c) == ptr;
      ghost var i, j := Coordinates(H, c);
      ghost var r, h := State(), H;
      SlotFacts(State(), H, i, j);
      MinorFacts(State(), H, i, j);
      FreeFacts(State(), H, i, j);
      var diff := Byte(bytes, ptr - ALIGN_INFO);
      var q := if diff < PADDING then ptr - diff else ptr;
      var min := q - MINOR;
      assert minors[min].data.magic == MAGIC;
      var maj := UnlinkMinor(min, i, j);
      MajorFacts(State(), H, i);
      if majors[maj].data.first == 0 {
        DropMajor(maj, i);
      } else {
        RefreshHint(maj, i);
      }
      IsFreeing(r, h, i, j, State(), H);
    }
  }

  /** What free of cell j of block i does: the cell goes, and with it the block if that was its
      last, which is given back; both totals and the hint follow. */
  ghost predicate Freeing(r: Rep, h: Layout, i: nat, j: nat, r': Rep, h': Layout)
    requires Live(h, i, j)
  {
    && h' == FreeLayout(h, i, j)
    && r'.mapped == (if |h[i].cells| == 1 then r.mapped - {h[i].base} else r.mapped)
    && r'.bestBet == FreeHint(h, r.bestBet, i, j)
    && r'.inuse == r.inuse - h[i].cells[j].size
    && r'.acquired == r.acquired - if |h[i].cells| == 1 then h[i].pages * 4096 else 0
  }

  lemma IsFreeing(r: Rep, h: Layout, i: nat, j: nat, r': Rep, h': Layout)
    requires Represents(r, h) && Live(h, i, j) && Represents(r', h')
    requires var h1 := h[i := Remove(h[i], j)];
             if |h[i].cells| == 1 then
               && h' == h1[..i] + h1[i + 1..] && r'.mapped == r.mapped - {h[i].base}
               && r'.bestBet == if r.bestBet == h[i].base then 0 else r.bestBet
             else
               && h' == h1 && r'.mapped == r.mapped
               && r'.bestBet == if r.bestBet != 0 && Signed32(Spare(h1[i])) > Signed32(HintSpare(h1, r.bestBet))
                                then h[i].base else r.bestBet
    ensures Freeing(r, h, i, j, r', h') && h' == FreeLayout(h, i, j)
  {
    hide Represents, Spare, HintSpare;
    TotalsOfRep(r, h);
    TotalsOfRep(r', h');
    FreeTotals(h, i, j);
    var h1 := h[i := Remove(h[i], j)];
    assert h1[..i] + h1[i + 1..] == h[..i] + h[i + 1..];
  }

  /** The search is about to look at block i: of the blocks before it none had room, and the
      hint has been moved over them. `from` is the hint this pass began with. */
  ghost predicate Scanning(h: Layout, best: int, need: int, i: nat, betting: bool, from: int, hint: int) {
    var start := Start(h, best, need);
    if betting then
      && FromBet(h, best, need) && from == best && start <= i <= |h|
      && NoRoom(h, start, i, need) && hint == Scanned(h, from, start, i)
    else
      && i <= |h| && NoRoom(h, 0, i, need) && hint == Scanned(h, from, 0, i)
      && if FromBet(h, best, need) then NoRoom(h, start, |h|, need) && from == Scanned(h, best, start, |h|)
         else from == best
  }

  lemma {:induction false} ScanBegins(h: Layout, best: int, need: int)
    ensures if FromBet(h, best, need) then Scanning(h, best, need, IndexOf(h, best), true, best, best)
            else Scanning(h, best, need, 0, false, best, best)
  {}

  lemma ScanGoesOn(h: Layout, best: int, need: int, i: nat, betting: bool, from: int, hint: int)
    requires i < |h| && Scanning(h, best, need, i, betting, from, hint) && !Roomy(h[i], need)
    ensures Scanning(h, best, need, i + 1, betting, from, Better(h, hint, i))
  {
    hide Start, Better;
  }

  lemma ScanRestarts(h: Layout, best: int, need: int, i: nat, from: int, hint: int)
    requires i == |h| - 1 && Scanning(h, best, need, i, true, from, hint) && !Roomy(h[i], need)
    ensures Scanning(h, best, need, 0, false, Better(h, hint, i), Better(h, hint, i))
  {
    hide Start, Better;
  }

  lemma {:induction false} ScanFound(h: Layout, best: int, need: int, i: nat, betting: bool, from: int, hint: int)
    requires i < |h| && Scanning(h, best, need, i, betting, from, hint) && Roomy(h[i], need)
    ensures Placement(h, need, Start(h, best, need)) == At(i, FirstGap(h[i], need, 0))
    ensures Better(h, hint, i) == SearchHint(h, best, need)
  {
    hide Roomy, Better;
    PlacementIs(h, need, Start(h, best, need), i);
  }

  lemma ScanEnds(h: Layout, best: int, need: int, i: nat, from: int, hint: int)
    requires i == |h| - 1 && Scanning(h, best, need, i, false, from, hint) && !Roomy(h[i], need)
    ensures Placement(h, need, Start(h, best, need)) == Nowhere
    ensures Better(h, hint, i) == SearchHint(h, best, need)
  {
    hide Roomy, Better;
    PlacementNone(h, need, Start(h, best, need));
  }

  /** Freeing cell j of block i, in the terms of free's contract. */
  lemma FreeFacts(r: Rep, h: Layout, i: nat, j: nat)
    requires Represents(r, h) && NoneEmpty(h) && Live(h, i, j)
    ensures NoneEmpty(FreeLayout(h, i, j))
    ensures Cells(FreeLayout(h, i, j)) == set c | c in Cells(h) && UserPtr(c) != UserPtr(h[i].cells[j])
    ensures forall k: nat, l: nat :: Live(h, k, l) && UserPtr(h[k].cells[l]) == UserPtr(h[i].cells[j]) ==> k == i && l == j
    ensures 0 < UserPtr(h[i].cells[j])
    ensures var h' := h[i := Remove(h[i], j)];
            && |h'[i].cells| == |h[i].cells| - 1 && h'[i].base == h[i].base
            && h'[..i] + h'[i + 1..] == h[..i] + h[i + 1..]
  {
    hide Cells, UserPtr, NoneEmpty;
    LayoutOfRep(r, h);
    hide Represents, LayoutOk;
    FreeLayoutOk(h, i, j);
    FreeCells(h, i, j);
    var c := h[i].cells[j];
    InCells(h, i, j);
    CellShape(h, c);
    forall d | d in Cells(h) && UserPtr(d) == UserPtr(c)
      ensures d == c
    {
      UserPtrUnique(h, c, d);
    }
    forall k: nat, l: nat | Live(h, k, l) && UserPtr(h[k].cells[l]) == UserPtr(c)
      ensures k == i && l == j
    {
      UserPtrInjective(h, i, j, k, l);
    }
  }

  ghost predicate NoGapAnywhere(h: Layout, req: int) {
    forall i :: 0 <= i < |h| ==> !HasRoom(h[i], req + PADDING + MINOR)
  }

  lemma MallocAddsCell(h: Layout, best: int, req: int, page: int)
    requires LayoutOk(h) && NoneEmpty(h) && 0 <= req && PageOffer(h, page, req + PADDING)
    requires page != 0 || !NoGapAnywhere(h, req)
    ensures var h' := MallocLayout(h, best, req, page);
            var s := MallocSpot(h, best, req);
            && Live(h', s.block, s.gap)
            && var c := h'[s.block].cells[s.gap];
               0 < UserPtr(c) && c !in Cells(h) && Cells(h') == Cells(h) + {c}
  {
    hide LayoutOk, Placement, Start, PageOffer, PagesFor, NoneEmpty, HasRoom, Cells;
    PlacementComplete(h, req + PADDING + MINOR, Start(h, best, req + PADDING + MINOR));
    MallocLayoutOk(h, best, req, page);
    MallocCases(h, best, req, page);
    MallocChanges(h, best, req, page);
    FreeUndoesMalloc(h, best, req, page);
    var h', s := MallocLayout(h, best, req, page), MallocSpot(h, best, req);
    FreeCells(h', s.block, s.gap);
    InCells(h', s.block, s.gap);
    CellShape(h', h'[s.block].cells[s.gap]);
  }

  lemma MallocChanges(h: Layout, best: int, req: int, page: int)
    requires 0 <= req
    requires page != 0 || Placement(h, req + PADDING + MINOR, Start(h, best, req + PADDING + MINOR)).At?
    ensures MallocLayout(h, best, req, page) != h
  {}

  /** Requests for which no 32-bit sum in the allocator wraps. */
  ghost predicate RequestOk(req: int) {
    0 <= req && req + PADDING + MAJOR + MINOR + PAGE <= U32
  }
}
