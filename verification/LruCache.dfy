/** The cache as it is coded: a linked list of entries, whose nodes keep their identity as
    they move, and an index from keys to nodes. */
module LruCache {
  import opened Machine
  import opened Lru

  class Cache<K(==), V> {
    const max: nat
    var list: seq<nat>              // node identities, most recently used first
    var node: map<nat, Entry<K, V>>
    var index: map<K, nat>
    var next: nat                   // identity of the next node

    ghost predicate Valid()
      reads this
    {
      Stored(list, node) && Linked(list, node, index, next) && |index| == |list| <= max
    }

    ghost function Contents(): Entries<K, V>
      requires Valid()
      reads this
    {
      Read(list, node)
    }

    constructor (max: nat)
      ensures Valid() && Contents() == [] && this.max == max
    {
      this.max := max;
      list, node, index, next := [], map[], map[], 0;
    }

    method Put(k: K, v: V)
      requires Valid()
      modifies this
      ensures Valid() && Contents() == Apply(old(Contents()), Op.Put(k, v), max)
    {
      hide Linked;
      IndexIs(list, node, index, next, k);
      var begin := next;
      var it := if k in index then Some(index[k]) else None;
      if it.Some? {
        Unlink(list, node, index, next, k);
        list := Erase(list, it.value);
        index := index - {k};
      } else {
        WithoutAbsent(Contents(), k);
      }
      Link(list, node, index, next, Entry(k, v));
      next := next + 1;
      node := node[begin := Entry(k, v)];
      list := [begin] + list;
      index := index[k := begin];
      if |index| > max {
        PopBack();
      }
    }

    method PopBack()
      requires Stored(list, node) && Linked(list, node, index, next) && |index| == |list| == max + 1
      modifies `list, `index
      ensures Valid() && Contents() == Bound(old(Read(list, node)), max)
    {
      var last := node[list[|list| - 1]].key;
      PopLinked(list, node, index, next);
      index := index - {last};
      list := list[..|list| - 1];
    }

    method Get(k: K) returns (v: Option<V>)
      requires Valid()
      modifies this
      ensures Valid() && Contents() == Apply(old(Contents()), Op.Get(k), max)
      ensures v.Some? <==> Has(old(Contents()), k)
      ensures v.Some? ==> v.value == Find(old(Contents()), k)
    {
      hide Linked;
      IndexIs(list, node, index, next, k);
      if k !in index {
        return None;
      }
      var it := index[k];
      Unlink(list, node, index, next, k);
      Relink(list, node, index, next, k);
      list := [it] + Erase(list, it);
      return Some(node[it].value);
    }

    method Drop(k: K)
      requires Valid()
      modifies this
      ensures Valid() && Contents() == Apply(old(Contents()), Op.Drop(k), max)
    {
      hide Linked;
      IndexIs(list, node, index, next, k);
      if k in index {
        Unlink(list, node, index, next, k);
        list := Erase(list, index[k]);
        index := index - {k};
      } else {
        WithoutAbsent(Contents(), k);
      }
    }

    method Exists(k: K) returns (b: bool)
      requires Valid()
      ensures b <==> Has(Contents(), k)
    {
      IndexIs(list, node, index, next, k);
      b := k in index;
    }

    method Size() returns (n: nat)
      requires Valid()
      ensures n == |Contents()|
    {
      ReadFrame(list, node, node);
      n := |index|;
    }
  }

  ghost predicate Stored<K, V>(list: seq<nat>, node: map<nat, Entry<K, V>>) {
    forall n :: n in list ==> n in node
  }

  predicate NoRepeat(list: seq<nat>) {
    list == [] || (list[0] !in list[1..] && NoRepeat(list[1..]))
  }

  /** The index and the list are in bijection. */
  ghost predicate Linked<K, V>(list: seq<nat>, node: map<nat, Entry<K, V>>, index: map<K, nat>, next: nat)
    requires Stored(list, node)
  {
    && NoRepeat(list)
    && (forall n :: n in list ==> n < next && node[n].key in index && index[node[n].key] == n)
    && (forall k :: k in index ==> index[k] in list && index[k] in node && node[index[k]].key == k)
  }

  ghost function Read<K, V>(list: seq<nat>, node: map<nat, Entry<K, V>>): Entries<K, V>
    requires Stored(list, node)
  {
    if list == [] then [] else [node[list[0]]] + Read(list[1..], node)
  }

  function Erase(list: seq<nat>, n: nat): seq<nat> {
    if list == [] then [] else if list[0] == n then list[1..] else [list[0]] + Erase(list[1..], n)
  }

  lemma {:induction false} EraseIs(list: seq<nat>, n: nat)
    requires NoRepeat(list)
    requires n in list
    ensures forall m :: m in Erase(list, n) <==> m in list && m != n
    ensures |Erase(list, n)| == |list| - 1
    ensures NoRepeat(Erase(list, n))
  {
    if list[0] != n {
      EraseIs(list[1..], n);
      assert Erase(list, n)[1..] == Erase(list[1..], n);
    }
  }

  lemma {:induction false} PopIsErase(list: seq<nat>)
    requires list != [] && NoRepeat(list)
    ensures list[..|list| - 1] == Erase(list, list[|list| - 1])
  {
    if |list| > 1 {
      assert list[1..][|list| - 2] == list[|list| - 1];
      PopIsErase(list[1..]);
      assert list[..|list| - 1] == [list[0]] + list[1..][..|list| - 2];
    }
  }

  lemma {:induction false} ReadFrame<K, V>(list: seq<nat>, node: map<nat, Entry<K, V>>, node': map<nat, Entry<K, V>>)
    requires forall n :: n in list ==> n in node && n in node' && node'[n] == node[n]
    ensures Read(list, node') == Read(list, node)
    ensures |Read(list, node)| == |list|
  {
    if list != [] {
      ReadFrame(list[1..], node, node');
    }
  }

  /** Looking a key up in the index is looking it up in the entries. */
  lemma {:induction false} IndexIs<K, V>(list: seq<nat>, node: map<nat, Entry<K, V>>, index: map<K, nat>, next: nat, k: K)
    requires Stored(list, node) && Linked(list, node, index, next)
    ensures k in index <==> Has(Read(list, node), k)
    ensures k in index ==> Find(Read(list, node), k) == node[index[k]].value
    ensures |Read(list, node)| == |list|
  {
    ReadFrame(list, node, node);
    if k in index {
      ReadHas(list, node, k, index[k]);
    } else {
      ReadLacks(list, node, k);
    }
  }

  lemma {:induction false} ReadHas<K, V>(list: seq<nat>, node: map<nat, Entry<K, V>>, k: K, n: nat)
    requires forall m :: m in list ==> m in node && (node[m].key == k <==> m == n)
    requires n in list
    ensures Has(Read(list, node), k) && Find(Read(list, node), k) == node[n].value
  {
    assert Read(list, node)[1..] == Read(list[1..], node);
    if list[0] != n {
      ReadHas(list[1..], node, k, n);
    }
  }

  lemma {:induction false} ReadLacks<K, V>(list: seq<nat>, node: map<nat, Entry<K, V>>, k: K)
    requires forall m :: m in list ==> m in node && node[m].key != k
    ensures !Has(Read(list, node), k)
  {
    if list != [] {
      assert Read(list, node)[1..] == Read(list[1..], node);
      ReadLacks(list[1..], node, k);
    }
  }

  /** Erasing the node of a key from the list is removing the key's entry. */
  lemma {:induction false} ReadErase<K, V>(list: seq<nat>, node: map<nat, Entry<K, V>>, k: K, n: nat)
    requires NoRepeat(list) && n in list && Stored(Erase(list, n), node)
    requires forall m :: m in list ==> m in node && (node[m].key == k <==> m == n)
    ensures Read(Erase(list, n), node) == Without(Read(list, node), k)
  {
    var rest := list[1..];
    assert Read(list, node)[1..] == Read(rest, node);
    if list[0] == n {
      ReadLacks(rest, node, k);
      WithoutAbsent(Read(rest, node), k);
    } else {
      EraseIs(rest, n);
      ReadErase(rest, node, k, n);
      assert Erase(list, n)[1..] == Erase(rest, n);
    }
  }

  lemma {:induction false} Unlink<K, V>(list: seq<nat>, node: map<nat, Entry<K, V>>, index: map<K, nat>, next: nat, k: K)
    requires Stored(list, node) && Linked(list, node, index, next) && k in index
    ensures Stored(Erase(list, index[k]), node) && Linked(Erase(list, index[k]), node, index - {k}, next)
    ensures |Erase(list, index[k])| == |list| - 1 && |index - {k}| == |index| - 1
    ensures Read(Erase(list, index[k]), node) == Without(Read(list, node), k)
  {
    EraseIs(list, index[k]);
    ReadErase(list, node, k, index[k]);
  }

  lemma Link<K, V>(list: seq<nat>, node: map<nat, Entry<K, V>>, index: map<K, nat>, next: nat, e: Entry<K, V>)
    requires Stored(list, node) && Linked(list, node, index, next) && e.key !in index
    ensures Stored([next] + list, node[next := e]) && Linked([next] + list, node[next := e], index[e.key := next], next + 1)
    ensures Read([next] + list, node[next := e]) == [e] + Read(list, node)
    ensures |Read(list, node)| == |list| && |index[e.key := next]| == |index| + 1
  {
    assert ([next] + list)[1..] == list;
    ReadFrame(list, node, node[next := e]);
  }

  /** Moving a node to the front leaves the bijection alone. */
  lemma {:induction false} Relink<K, V>(list: seq<nat>, node: map<nat, Entry<K, V>>, index: map<K, nat>, next: nat, k: K)
    requires Stored(list, node) && Linked(list, node, index, next) && k in index
    ensures var moved := [index[k]] + Erase(list, index[k]);
            && Stored(moved, node) && Linked(moved, node, index, next) && |moved| == |list|
            && Read(moved, node) == [node[index[k]]] + Read(Erase(list, index[k]), node)
  {
    EraseIs(list, index[k]);
    var moved := [index[k]] + Erase(list, index[k]);
    assert moved[1..] == Erase(list, index[k]);
    assert forall n :: n in list ==> n in moved;
  }

  /** Popping the last node, and its key from the index. */
  lemma PopLinked<K, V>(list: seq<nat>, node: map<nat, Entry<K, V>>, index: map<K, nat>, next: nat)
    requires list != [] && Stored(list, node) && Linked(list, node, index, next)
    ensures var init, k := list[..|list| - 1], node[list[|list| - 1]].key;
            && Stored(init, node) && Linked(init, node, index - {k}, next) && k in index
            && |index - {k}| == |index| - 1
            && |Read(list, node)| == |list| && Read(init, node) == Read(list, node)[..|list| - 1]
  {
    var k := node[list[|list| - 1]].key;
    PopIsErase(list);
    Unlink(list, node, index, next, k);
    ReadFrame(list, node, node);
    ReadInit(list, node);
  }

  lemma {:induction false} ReadInit<K, V>(list: seq<nat>, node: map<nat, Entry<K, V>>)
    requires list != [] && Stored(list, node)
    ensures Stored(list[..|list| - 1], node) && |Read(list, node)| == |list|
    ensures Read(list[..|list| - 1], node) == Read(list, node)[..|list| - 1]
  {
    ReadFrame(list, node, node);
    if |list| > 1 {
      ReadInit(list[1..], node);
      assert list[..|list| - 1][1..] == list[1..][..|list| - 2];
    }
  }
}
