/** The index arithmetic that the circular buffer and the operation queue share, against a
    bounded first-in first-out queue. */
module Ring {
  /** top is the cell written next; the count cells before it, cyclically, are in use. */
  datatype Ring<T> = Ring(cells: seq<T>, count: nat, top: nat)

  predicate Ok(r: Ring) {
    r.count <= |r.cells| && (r.top < |r.cells| || r.top == 0)
  }

  /** The cell of the i-th oldest item. */
  function Cell(size: nat, count: nat, top: nat, i: nat): (c: nat)
    requires i < count <= size && top < size
    ensures c < size
  {
    var start := top - count + i;
    if start < 0 then start + size else start
  }

  function Contents<T>(r: Ring<T>): seq<T>
    requires Ok(r)
  {
    seq(r.count, i requires 0 <= i < r.count => r.cells[Cell(|r.cells|, r.count, r.top, i)])
  }

  function Insert<T>(r: Ring<T>, x: T): Ring<T>
    requires Ok(r) && r.count < |r.cells|
  {
    var top := r.top + 1;
    Ring(r.cells[r.top := x], r.count + 1, if top == |r.cells| then 0 else top)
  }

  function Oldest<T>(r: Ring<T>): T
    requires Ok(r) && r.count > 0
  {
    var start := r.top - r.count;
    r.cells[if start < 0 then start + |r.cells| else start]
  }

  function Remove<T>(r: Ring<T>): Ring<T>
    requires Ok(r) && r.count > 0
  {
    r.(count := r.count - 1)
  }

  /** Inserting appends, without touching an item in use. */
  lemma InsertAppends<T>(r: Ring<T>, x: T)
    requires Ok(r) && r.count < |r.cells|
    ensures Ok(Insert(r, x)) && Contents(Insert(r, x)) == Contents(r) + [x]
  {}

  lemma RemoveTakesFirst<T>(r: Ring<T>)
    requires Ok(r) && r.count > 0
    ensures Ok(Remove(r)) && Contents(r) == [Oldest(r)] + Contents(Remove(r))
  {}

  // ---------- The circular buffer ----------

  class CircularBuffer<T(0)> {
    const buffer: array<T>
    var count: nat
    var top: nat
    const zero: T

    ghost function R(): Ring<T>
      reads this, buffer
    {
      Ring.Ring(buffer[..], count, top)
    }

    constructor (size: nat, zero: T)
      ensures Ok(R()) && Contents(R()) == [] && buffer.Length == size && this.zero == zero && fresh(buffer)
    {
      buffer := new T[size];
      count, top := 0, 0;
      this.zero := zero;
    }

    /** A bounded queue: an item added when it is full is ignored. */
    method AddItem(c: T)
      requires Ok(R())
      modifies `count, `top, buffer
      ensures Ok(R())
      ensures Contents(R()) ==
              if |old(Contents(R()))| < buffer.Length then old(Contents(R())) + [c] else old(Contents(R()))
    {
      ghost var was := R();
      if count < buffer.Length {
        InsertAppends(was, c);
        count := count + 1;
        buffer[top] := c;
        top := top + 1;
        if top == buffer.Length {
          top := 0;
        }
        assert R() == Insert(was, c);
      }
    }

    method ReadItem() returns (c: T)
      requires Ok(R())
      modifies `count
      ensures Ok(R())
      ensures var was := old(Contents(R()));
              if was == [] then c == zero && Contents(R()) == [] else was == [c] + Contents(R())
    {
      if count > 0 {
        RemoveTakesFirst(R());
        var start := top - count;
        if start < 0 {
          start := start + buffer.Length;
        }
        count := count - 1;
        return buffer[start];
      }
      return zero;
    }

    method Clear()
      modifies `count, `top
      ensures Ok(R()) && Contents(R()) == []
    {
      count, top := 0, 0;
    }
  }
}
