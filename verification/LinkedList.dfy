/** Doubly linked lists held in memory: a map from address to node, with 0 as the
    null pointer, and the sequence of items such a list represents. */
module LinkedList {

  datatype Node<T> = Node(prev: int, next: int, data: T)

  datatype Item<T> = Item(addr: int, data: T)

  type Memory<T> = map<int, Node<T>>

  function AddrOf<T>(s: seq<Item<T>>, i: int): int {
    if 0 <= i < |s| then s[i].addr else 0
  }

  function NodeAt<T>(s: seq<Item<T>>, i: nat): Node<T>
    requires i < |s|
  {
    Node(AddrOf(s, i - 1), AddrOf(s, i + 1), s[i].data)
  }

  /** The nodes of s are linked in mem in both directions. */
  ghost predicate Holds<T>(mem: Memory<T>, s: seq<Item<T>>) {
    forall i :: 0 <= i < |s| ==> s[i].addr in mem && mem[s[i].addr] == NodeAt(s, i)
  }

  ghost predicate Distinct<T>(s: seq<Item<T>>) {
    && (forall i :: 0 <= i < |s| ==> s[i].addr != 0)
    && (forall i, k :: 0 <= i < |s| && 0 <= k < |s| && s[i].addr == s[k].addr ==> i == k)
  }

  ghost predicate SameExcept<T>(mem: Memory<T>, mem': Memory<T>, except: set<int>) {
    forall a :: a in mem && a !in except ==> a in mem' && mem'[a] == mem[a]
  }

  function InsertAt<T>(s: seq<T>, j: nat, x: T): seq<T>
    requires j <= |s|
  {
    s[..j] + [x] + s[j..]
  }

  function RemoveAt<T>(s: seq<T>, j: nat): seq<T>
    requires j < |s|
  {
    s[..j] + s[j + 1..]
  }

  // ---------- Insertion ----------

  /** mem' is mem with x linked in before item j of s. */
  ghost predicate Linked<T>(mem: Memory<T>, mem': Memory<T>, s: seq<Item<T>>, j: nat, x: Item<T>)
    requires j <= |s|
  {
    var p, n := AddrOf(s, j - 1), AddrOf(s, j);
    && x.addr in mem' && mem'[x.addr] == Node(p, n, x.data)
    && (j > 0 ==> p in mem && p in mem' && mem'[p] == mem[p].(next := x.addr))
    && (j < |s| ==> n in mem && n in mem' && mem'[n] == mem[n].(prev := x.addr))
    && SameExcept(mem, mem', {x.addr, p, n})
  }

  lemma InsertAtAddr<T>(s: seq<Item<T>>, j: nat, x: Item<T>, k: int)
    requires j <= |s|
    ensures AddrOf(InsertAt(s, j, x), k) == if k < j then AddrOf(s, k) else if k == j then x.addr else AddrOf(s, k - 1)
  {
  }

  lemma InsertedNode<T>(mem: Memory<T>, mem': Memory<T>, s: seq<Item<T>>, j: nat, x: Item<T>, l: nat)
    requires j <= |s| && l < |s|
    requires s[l].addr != x.addr
    requires l != j - 1 ==> s[l].addr != AddrOf(s, j - 1)
    requires l != j ==> s[l].addr != AddrOf(s, j)
    requires s[l].addr in mem && mem[s[l].addr] == NodeAt(s, l)
    requires Linked(mem, mem', s, j, x)
    ensures s[l].addr in mem'
    ensures mem'[s[l].addr] == NodeAt(InsertAt(s, j, x), if l < j then l else l + 1)
  {}

  lemma InsertHolds<T>(mem: Memory<T>, mem': Memory<T>, s: seq<Item<T>>, j: nat, x: Item<T>)
    requires j <= |s|
    requires Distinct(s) && Distinct(InsertAt(s, j, x))
    requires Holds(mem, s) && Linked(mem, mem', s, j, x)
    ensures Holds(mem', InsertAt(s, j, x))
  {
    var s' := InsertAt(s, j, x);
    forall k | 0 <= k < |s'|
      ensures s'[k].addr in mem' && mem'[s'[k].addr] == NodeAt(s', k)
    {
      if k == j {
        InsertAtAddr(s, j, x, k - 1);
        InsertAtAddr(s, j, x, k + 1);
      } else {
        assert s'[k].addr != s'[j].addr;
        InsertedNode(mem, mem', s, j, x, if k < j then k else k - 1);
      }
    }
  }

  // ---------- Removal ----------

  /** mem' is mem with item j of s unlinked; the node itself may be overwritten. */
  ghost predicate Unlinked<T>(mem: Memory<T>, mem': Memory<T>, s: seq<Item<T>>, j: nat)
    requires j < |s|
  {
    var p, n := AddrOf(s, j - 1), AddrOf(s, j + 1);
    && (j > 0 ==> p in mem && p in mem' && mem'[p] == mem[p].(next := n))
    && (j + 1 < |s| ==> n in mem && n in mem' && mem'[n] == mem[n].(prev := p))
    && SameExcept(mem, mem', {s[j].addr, p, n})
  }

  /** Link the neighbours of node n to each other. */
  function Bypass<T>(mem: Memory<T>, n: Node<T>): Memory<T>
    requires n.next != 0 ==> n.next in mem
    requires n.prev != 0 ==> n.prev in mem
  {
    var m := if n.next != 0 then mem[n.next := mem[n.next].(prev := n.prev)] else mem;
    if n.prev != 0 then m[n.prev := m[n.prev].(next := n.next)] else m
  }

  lemma BypassUnlinks<T>(mem: Memory<T>, d: T, s: seq<Item<T>>, j: nat)
    requires Distinct(s) && Holds(mem, s) && j < |s|
    ensures s[j].addr in mem
    ensures var n := mem[s[j].addr];
            var m := mem[s[j].addr := n.(data := d)];
            && (n.next != 0 ==> n.next in m) && (n.prev != 0 ==> n.prev in m)
            && Unlinked(mem, Bypass(m, n), s, j)
  {}

  lemma RemovedNode<T>(mem: Memory<T>, mem': Memory<T>, s: seq<Item<T>>, j: nat, l: nat)
    requires j < |s| && l < |s| && l != j
    requires s[l].addr != s[j].addr
    requires l != j - 1 ==> s[l].addr != AddrOf(s, j - 1)
    requires l != j + 1 ==> s[l].addr != AddrOf(s, j + 1)
    requires s[l].addr in mem && mem[s[l].addr] == NodeAt(s, l)
    requires Unlinked(mem, mem', s, j)
    ensures s[l].addr in mem'
    ensures mem'[s[l].addr] == NodeAt(RemoveAt(s, j), if l < j then l else l - 1)
  {}

  lemma RemoveHolds<T>(mem: Memory<T>, mem': Memory<T>, s: seq<Item<T>>, j: nat)
    requires Distinct(s) && j < |s|
    requires Holds(mem, s) && Unlinked(mem, mem', s, j)
    ensures Holds(mem', RemoveAt(s, j))
  {
    var s' := RemoveAt(s, j);
    forall k | 0 <= k < |s'|
      ensures s'[k].addr in mem' && mem'[s'[k].addr] == NodeAt(s', k)
    {
      RemovedNode(mem, mem', s, j, if k < j then k else k + 1);
    }
  }

  // ---------- Payload update and framing ----------

  lemma UpdateHolds<T>(mem: Memory<T>, s: seq<Item<T>>, i: nat, d: T)
    requires Distinct(s) && i < |s| && Holds(mem, s)
    ensures Holds(mem[s[i].addr := mem[s[i].addr].(data := d)], s[i := Item(s[i].addr, d)])
  {}

}
