/** How a layout is represented in memory: doubly linked major and minor headers,
    and the undo offsets that ALIGN stores. Headers are held in maps from address
    to structure; all other bytes in a map from address to value. */
module HeapMemory {
  import opened LinkedList
  import opened HeapLayout
  import opened HeapSearch

  const MAGIC := 0xc001c0de
  const DEAD := 0xdeaddead

  /** The fields of a major and of a minor header besides the list links. */
  datatype Major = Major(pages: int, size: int, usage: int, first: int)
  datatype Minor = Minor(block: int, magic: int, size: int, req: int)

  type Bytes = map<int, int>

  function AddrAt(b: Block, j: int): int {
    if 0 <= j < |b.cells| then b.cells[j].addr else 0
  }

  function MajorItem(b: Block): Item<Major> {
    Item(b.base, Major(b.pages, Size(b), Usage(b), AddrAt(b, 0)))
  }

  function MinorItem(base: int, c: Cell): Item<Minor> {
    Item(c.addr, Minor(base, MAGIC, c.size, c.req))
  }

  function MajorItems(h: Layout): (s: seq<Item<Major>>)
    ensures |s| == |h|
  {
    seq(|h|, i requires 0 <= i < |h| => MajorItem(h[i]))
  }

  function MinorItems(b: Block): (s: seq<Item<Minor>>)
    ensures |s| == |b.cells|
  {
    seq(|b.cells|, j requires 0 <= j < |b.cells| => MinorItem(b.base, b.cells[j]))
  }

  ghost predicate MajorsOk(majors: Memory<Major>, h: Layout) {
    Holds(majors, MajorItems(h))
  }

  ghost predicate MinorsOk(minors: Memory<Minor>, h: Layout) {
    forall i :: 0 <= i < |h| ==> Holds(minors, MinorItems(h[i]))
  }

  function Byte(bytes: Bytes, a: int): int {
    if a in bytes then bytes[a] else 0
  }

  ghost predicate PadOk(bytes: Bytes, c: Cell) {
    Byte(bytes, UserPtr(c) - ALIGN_INFO) == Pad(c)
  }

  ghost predicate PadsIn(bytes: Bytes, b: Block) {
    forall j :: 0 <= j < |b.cells| ==> PadOk(bytes, b.cells[j])
  }

  ghost predicate PadsOk(bytes: Bytes, h: Layout) {
    forall i :: 0 <= i < |h| ==> PadsIn(bytes, h[i])
  }

  // ---------- Distinct addresses ----------

  lemma MinorsDistinct(b: Block)
    requires BlockOk(b)
    ensures Distinct(MinorItems(b))
  {}

  lemma MajorsDistinct(h: Layout)
    requires LayoutOk(h)
    ensures Distinct(MajorItems(h))
  {}

  // ---------- Minors ----------

  lemma InsertItems(b: Block, j: nat, c: Cell)
    requires j <= |b.cells|
    ensures MinorItems(Insert(b, j, c)) == InsertAt(MinorItems(b), j, MinorItem(b.base, c))
  {
  }

  lemma RemoveItems(b: Block, j: nat)
    requires j < |b.cells|
    ensures MinorItems(Remove(b, j)) == RemoveAt(MinorItems(b), j)
  {
  }

  lemma InsertMinors(minors: Memory<Minor>, minors': Memory<Minor>, b: Block, j: nat, c: Cell)
    requires BlockOk(b) && j <= |b.cells| && BlockOk(Insert(b, j, c))
    requires Holds(minors, MinorItems(b))
    requires Linked(minors, minors', MinorItems(b), j, MinorItem(b.base, c))
    ensures Holds(minors', MinorItems(Insert(b, j, c)))
  {
    MinorsDistinct(b);
    MinorsDistinct(Insert(b, j, c));
    InsertItems(b, j, c);
    InsertHolds(minors, minors', MinorItems(b), j, MinorItem(b.base, c));
  }

  lemma RemoveMinors(minors: Memory<Minor>, minors': Memory<Minor>, b: Block, j: nat)
    requires BlockOk(b) && j < |b.cells|
    requires Holds(minors, MinorItems(b)) && Unlinked(minors, minors', MinorItems(b), j)
    ensures Holds(minors', MinorItems(Remove(b, j)))
  {
    MinorsDistinct(b);
    RemoveItems(b, j);
    RemoveHolds(minors, minors', MinorItems(b), j);
  }

  ghost predicate SameOutside<T>(m: map<int, T>, m': map<int, T>, lo: int, hi: int) {
    forall a :: a in m && a != 0 && (a < lo || hi <= a) ==> a in m' && m'[a] == m[a]
  }

  lemma ReplaceMinors(minors: Memory<Minor>, minors': Memory<Minor>, h: Layout, i: nat, b: Block)
    requires LayoutOk(h) && i < |h| && MinorsOk(minors, h)
    requires SameOutside(minors, minors', h[i].base, Limit(h[i]))
    requires Holds(minors', MinorItems(b))
    ensures MinorsOk(minors', h[i := b])
  {}

  // ---------- Majors ----------

  /** Changing one block's cells touches only the payload of that block's header. */
  lemma ReplaceMajors(majors: Memory<Major>, h: Layout, i: nat, b: Block)
    requires LayoutOk(h) && i < |h| && MajorsOk(majors, h)
    requires b.base == h[i].base
    ensures h[i].base in majors
    ensures MajorsOk(majors[b.base := majors[b.base].(data := MajorItem(b).data)], h[i := b])
  {
    MajorsDistinct(h);
    var s := MajorItems(h);
    assert s[i].addr in majors;
    assert MajorItems(h[i := b]) == s[i := MajorItem(b)];
    UpdateHolds(majors, s, i, MajorItem(b).data);
  }

  lemma AppendMajors(majors: Memory<Major>, majors': Memory<Major>, h: Layout, b: Block)
    requires LayoutOk(h) && LayoutOk(h + [b]) && MajorsOk(majors, h)
    requires Linked(majors, majors', MajorItems(h), |h|, MajorItem(b))
    ensures MajorsOk(majors', h + [b])
  {
    MajorsDistinct(h);
    MajorsDistinct(h + [b]);
    assert MajorItems(h + [b]) == InsertAt(MajorItems(h), |h|, MajorItem(b));
    InsertHolds(majors, majors', MajorItems(h), |h|, MajorItem(b));
  }

  lemma DropMajors(majors: Memory<Major>, majors': Memory<Major>, h: Layout, i: nat)
    requires LayoutOk(h) && i < |h| && MajorsOk(majors, h)
    requires Unlinked(majors, majors', MajorItems(h), i)
    ensures MajorsOk(majors', h[..i] + h[i + 1..])
  {
    hide LayoutOk, Holds, Unlinked, MajorItems, RemoveAt;
    MajorsDistinct(h);
    DropItems(h, i);
    RemoveHolds(majors, majors', MajorItems(h), i);
  }

  lemma DropItems(h: Layout, i: nat)
    requires i < |h|
    ensures |MajorItems(h)| == |h| && MajorItems(h[..i] + h[i + 1..]) == RemoveAt(MajorItems(h), i)
  {}

  lemma MajorAt(majors: Memory<Major>, h: Layout, i: nat)
    requires MajorsOk(majors, h) && i < |h|
    ensures h[i].base in majors && majors[h[i].base].data == MajorItem(h[i]).data
  {
    var s := MajorItems(h);
    assert s[i].addr in majors && majors[s[i].addr] == NodeAt(s, i);
  }

  // ---------- The undo offsets ----------

  lemma PlacedElsewhere(h: Layout, i: nat, j: nat, size: int, req: int, k: nat, l: nat)
    requires i < |h| && j <= |h[i].cells| && Live(Place(h, i, j, size, req), k, l)
    requires k != i || l != j
    ensures Place(h, i, j, size, req)[k].cells[l] == h[k].cells[if k == i && l > j then l - 1 else l]
  {
  }

  /** Writing the new cell's undo slot leaves every other slot alone. */
  lemma PlacePads(bytes: Bytes, h: Layout, i: nat, j: nat, size: int, req: int)
    requires i < |h| && j <= |h[i].cells| && LayoutOk(Place(h, i, j, size, req))
    requires PadsOk(bytes, h)
    ensures var c := Cell(GapStart(h[i], j), size, req);
            PadsOk(bytes[UserPtr(c) - ALIGN_INFO := Pad(c)], Place(h, i, j, size, req))
  {
    var c := Cell(GapStart(h[i], j), size, req);
    var h' := Place(h, i, j, size, req);
    var bytes' := bytes[UserPtr(c) - ALIGN_INFO := Pad(c)];
    assert h'[i].cells[j] == c;
    forall k | 0 <= k < |h'|
      ensures PadsIn(bytes', h'[k])
    {
      forall l | 0 <= l < |h'[k].cells|
        ensures PadOk(bytes', h'[k].cells[l])
      {
        if k != i || l != j {
          PlacedElsewhere(h, i, j, size, req, k, l);
          if UserPtr(h'[k].cells[l]) == UserPtr(c) {
            UserPtrInjective(h', i, j, k, l);
          }
          assert PadsIn(bytes, h[k]);
        }
      }
    }
  }

  lemma RemovePads(bytes: Bytes, h: Layout, i: nat, j: nat)
    requires Live(h, i, j) && PadsOk(bytes, h)
    ensures PadsOk(bytes, h[i := Remove(h[i], j)])
  {}
}
