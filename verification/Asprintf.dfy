/** vasprintf and vreasprintf_append: measure, allocate from the heap, write. Each call
    formats twice; p1 and p2 are what the parameter structure, which is not initialised,
    happens to hold each time. Both times the arguments are those of the one va_list, which
    the code passes on without va_copy: so it is where a va_list is passed by value, as on
    the 32-bit x86 the system is for. */
module Asprintf {
  import opened Machine
  import opened Digits
  import opened HeapLayout
  import opened HeapSearch
  import opened HeapMemory
  import opened HeapRep
  import opened HeapCells
  import opened Allocator
  import opened HeapRealloc
  import opened Printf
  import opened Snprintf

  ghost predicate Fits(fmt: CStr, args: seq<Arg>, p: Field) {
    Formatted(fmt, args, p).Some? && |Formatted(fmt, args, p).value| < U32 / 2
  }

  function Text(fmt: CStr, args: seq<Arg>, p: Field): string
    requires Formatted(fmt, args, p).Some?
  {
    Formatted(fmt, args, p).value
  }

  /** vsnprintf into part of a region the caller owns. */
  method PrintAt(h: Heap, str: nat, size: nat, fmt: CStr, args: seq<Arg>, p: Field, ghost c: Cell) returns (n: nat)
    requires h.Valid() && c in Cells(h.H) && Fits(fmt, args, p)
    requires str != 0 && 0 < size < U32 && UserPtr(c) <= str && str + size <= UserPtr(c) + c.req
    modifies h`bytes
    ensures h.Valid() && n == |Text(fmt, args, p)|
    ensures Stored(h.bytes, str, Text(fmt, args, p)[..Least(n, size - 1)])
    ensures Outside(old(h.bytes), h.bytes, str, size)
    ensures Untouched(Cells(h.H) - {c}, old(h.bytes), h.bytes)
  {
    hide Represents, LayoutOk, NoneEmpty, Cells, UserPtr, Formatted, AfterWrite, Stored;
    ghost var b := h.bytes;
    var r;
    r, n := Vsnprintf(h.bytes, str, size, fmt, args, p);
    WriteStores(b, str, size, Text(fmt, args, p));
    OwnWrite(h.State(), h.H, c, r, str, size);
    h.bytes := r;
  }

  ghost predicate Outside(b: Bytes, b': Bytes, str: int, size: int) {
    forall a :: !(str <= a < str + size) ==> Byte(b', a) == Byte(b, a)
  }

  lemma OwnWrite(r: Rep, h: Layout, c: Cell, bytes': Bytes, str: int, size: int)
    requires Represents(r, h) && c in Cells(h)
    requires UserPtr(c) <= str && str + size <= UserPtr(c) + c.req && Outside(r.bytes, bytes', str, size)
    ensures Represents(r.(bytes := bytes'), h) && Untouched(Cells(h) - {c}, r.bytes, bytes')
  {
    hide Represents, LayoutOk, Cells, UserPtr;
    LayoutOfRep(r, h);
    forall a ensures Byte(bytes', a) == Byte(r.bytes, a) || (c in Cells(h) && InRegion(c, a)) {}
    BytesRepresents(r, h, bytes');
    forall d, a | d in Cells(h) - {c} && InRegion(d, a)
      ensures Byte(bytes', a) == Byte(r.bytes, a)
    {
      RegionsDisjoint(h, d, c, a);
    }
  }

  /** Formatting to nowhere counts the characters and writes nothing. */
  method Measure(h: Heap, fmt: CStr, args: seq<Arg>, p: Field) returns (len: nat)
    requires Fits(fmt, args, p)
    modifies h`bytes
    ensures h.bytes == old(h.bytes) && len == |Text(fmt, args, p)|
  {
    hide Formatted;
    var m;
    m, len := Vsnprintf(h.bytes, 0, 0, fmt, args, p);
    h.bytes := m;
  }

  /** vasprintf, when malloc finds memory: a new region holds the text, terminated. It is
      cut short only if the second formatting gives more than the first, which a guarded
      format never does. */
  method Vasprintf(h: Heap, fmt: CStr, args: seq<Arg>, p1: Field, p2: Field, page: int)
      returns (strp: int, n: nat, ghost c: Cell)
    requires h.Valid() && Fits(fmt, args, p1) && Fits(fmt, args, p2)
    requires var size := |Text(fmt, args, p1)| + 1;
             && RequestOk(size) && PageOffer(h.H, page, size + PADDING)
             && (page != 0 || !NoGapAnywhere(h.H, size))
    modifies h
    ensures h.Valid() && strp == UserPtr(c) && c !in Cells(old(h.H)) && Cells(h.H) == Cells(old(h.H)) + {c}
    ensures n == |Text(fmt, args, p2)|
    ensures Stored(h.bytes, strp, Text(fmt, args, p2)[..Least(n, |Text(fmt, args, p1)|)])
    ensures Guarded(fmt) ==> Stored(h.bytes, strp, Text(fmt, args, p1))
    ensures Untouched(Cells(old(h.H)), old(h.bytes), h.bytes)
  {
    hide Represents, LayoutOk, NoneEmpty, Cells, UserPtr, Formatted, Guarded, Pad, PageOffer, NoGapAnywhere, Stored,
         MallocLayout, MallocSpot, PagesFor;
    ghost var before, b := h.H, h.bytes;
    var len := Measure(h, fmt, args, p1);
    var size := len + 1;
    strp, c := h.Malloc(size, page);
    LayoutOfRep(h.State(), h.H);
    WriteInCell(h.H, before, c, b, h.bytes);
    CellShape(h.H, c);
    ghost var m := h.bytes;
    n := PrintAt(h, strp, size, fmt, args, p2, c);
    UntouchedTwice(before, h.H, c, b, m, h.bytes);
    if Guarded(fmt) {
      GuardedIsSafe(fmt, args, p1, p2);
      assert Text(fmt, args, p2)[..n] == Text(fmt, args, p1);
    }
  }

  lemma UntouchedTwice(before: Layout, h: Layout, c: Cell, b: Bytes, m: Bytes, b': Bytes)
    requires c !in Cells(before) && Cells(h) == Cells(before) + {c}
    requires Untouched(Cells(before), b, m) && Untouched(Cells(h) - {c}, m, b')
    ensures Untouched(Cells(before), b, b')
  {}

  /** strlen, on memory that holds the terminated string s. */
  method Strlen(bytes: Bytes, p: int, ghost s: CStr) returns (n: nat)
    requires Stored(bytes, p, s)
    ensures n == |s|
  {
    assert forall k :: 0 <= k < |s| ==> CharAt(bytes, p, k) == s[k] as int && s[k] in s;
    n := 0;
    while CharAt(bytes, p, n) != 0
      invariant n <= |s|
      decreases |s| - n
    {
      n := n + 1;
    }
  }

  /** vreasprintf_append, when realloc finds memory: the string s that *strp held is now
      followed by the text, wherever realloc put it. */
  method VreasprintfAppend(h: Heap, strp: int, fmt: CStr, args: seq<Arg>, p1: Field, p2: Field, page: int,
                           ghost c: Cell, ghost s: CStr) returns (q: int, n: nat, ghost c': Cell)
    requires h.Valid() && Fits(fmt, args, p1) && Fits(fmt, args, p2)
    requires c in Cells(h.H) && UserPtr(c) == strp && strp != 0 && |s| < c.req && Stored(h.bytes, strp, s)
    requires var size := |s| + |Text(fmt, args, p1)| + 1;
             && RequestOk(size) && PageOffer(h.H, page, size + PADDING)
             && (size > c.req ==> page != 0 || !NoGapAnywhere(h.H, size))
    modifies h
    ensures h.Valid() && q == UserPtr(c') && Cells(h.H) == Cells(old(h.H)) - {c} + {c'}
    ensures n == |Text(fmt, args, p2)|
    ensures Stored(h.bytes, q, s + Text(fmt, args, p2)[..Least(n, |Text(fmt, args, p1)|)])
    ensures Guarded(fmt) ==> Stored(h.bytes, q, s + Text(fmt, args, p1))
    ensures Untouched(Cells(old(h.H)) - {c}, old(h.bytes), h.bytes)
  {
    hide Represents, LayoutOk, NoneEmpty, Cells, UserPtr, Formatted, Guarded, PageOffer, NoGapAnywhere, Stored,
         MallocLayout, PagesFor;
    ghost var before, b := h.H, h.bytes;
    var len := Measure(h, fmt, args, p1);
    var extrasize := len + 1;
    var held := Strlen(h.bytes, strp, s);
    q, c' := Realloc(h, strp, held + extrasize, page, c);
    MovedString(before, b, h.H, h.bytes, c, c', held + extrasize, s);
    LayoutOfRep(h.State(), h.H);
    CellShape(h.H, c');
    ghost var m := h.bytes;
    var end := Strlen(h.bytes, q, s);
    n := PrintAt(h, q + end, extrasize, fmt, args, p2, c');
    Joined(m, h.bytes, q, s, Text(fmt, args, p2)[..Least(n, len)], extrasize);
    UntouchedMoved(before, h.H, c, c', b, m, h.bytes);
    if Guarded(fmt) {
      GuardedIsSafe(fmt, args, p1, p2);
      assert Text(fmt, args, p2)[..n] == Text(fmt, args, p1);
    }
  }

  lemma MovedString(before: Layout, b: Bytes, after: Layout, b': Bytes, c: Cell, c': Cell, size: int, s: CStr)
    requires Moved(before, b, after, b', c, c', size) && |s| < c.req && |s| < size && Stored(b, UserPtr(c), s)
    ensures Stored(b', UserPtr(c'), s) && c' in Cells(after) && c'.req == size
  {
    hide Cells, UserPtr, Untouched;
    forall k | 0 <= k <= |s| ensures CharAt(b', UserPtr(c'), k) == CharAt(b, UserPtr(c), k) {
      assert UserByte(b', c', k) == UserByte(b, c, k);
    }
  }

  lemma Joined(m: Bytes, b': Bytes, q: int, s: string, t: string, size: int)
    requires Stored(m, q, s) && Stored(b', q + |s|, t) && Outside(m, b', q + |s|, size)
    ensures Stored(b', q, s + t)
  {}

  lemma UntouchedMoved(before: Layout, h: Layout, c: Cell, c': Cell, b: Bytes, m: Bytes, b': Bytes)
    requires Cells(h) == Cells(before) - {c} + {c'} && c in Cells(before)
    requires Untouched(Cells(before) - {c}, b, m) && Untouched(Cells(h) - {c'}, m, b')
    requires c' !in Cells(before) - {c}
    ensures Untouched(Cells(before) - {c}, b, b')
  {}
}
