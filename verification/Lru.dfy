/** What the least-recently-used cache computes, over whole traces of operations. */
module Lru {
  import opened Machine

  datatype Entry<K, V> = Entry(key: K, value: V)

  /** A get of a missing key throws and changes nothing. */
  datatype Op<K, V> = Put(key: K, value: V) | Get(key: K) | Drop(key: K)

  /** The entries, most recently used first. */
  type Entries<K, V> = seq<Entry<K, V>>

  predicate Has<K(==), V>(s: Entries<K, V>, k: K) {
    s != [] && (s[0].key == k || Has(s[1..], k))
  }

  function Find<K(==), V>(s: Entries<K, V>, k: K): V
    requires Has(s, k)
  {
    if s[0].key == k then s[0].value else Find(s[1..], k)
  }

  function Without<K(==), V>(s: Entries<K, V>, k: K): Entries<K, V> {
    if s == [] then [] else if s[0].key == k then Without(s[1..], k) else [s[0]] + Without(s[1..], k)
  }

  function Bound<K, V>(s: Entries<K, V>, max: nat): Entries<K, V> {
    if |s| > max then s[..|s| - 1] else s
  }

  function Apply<K(==), V>(s: Entries<K, V>, op: Op<K, V>, max: nat): Entries<K, V> {
    match op
    case Put(k, v) => Bound([Entry(k, v)] + Without(s, k), max)
    case Get(k) => if Has(s, k) then [Entry(k, Find(s, k))] + Without(s, k) else s
    case Drop(k) => Without(s, k)
  }

  /** The cache after a trace, started empty. */
  function Run<K(==), V>(t: seq<Op<K, V>>, max: nat): Entries<K, V> {
    if t == [] then [] else Apply(Run(t[..|t| - 1], max), t[|t| - 1], max)
  }

  // ---------- Entries ----------

  /** No key occurs twice. */
  predicate Distinct<K(==), V>(s: Entries<K, V>) {
    s == [] || (!Has(s[1..], s[0].key) && Distinct(s[1..]))
  }

  lemma {:induction false} WithoutHas<K, V>(s: Entries<K, V>, k: K, j: K)
    ensures Has(Without(s, k), j) <==> Has(s, j) && j != k
    ensures Has(s, j) && j != k ==> Find(Without(s, k), j) == Find(s, j)
  {
    if s != [] {
      WithoutHas(s[1..], k, j);
      assert s[0].key != k ==> Without(s, k)[1..] == Without(s[1..], k);
    }
  }

  lemma {:induction false} WithoutSize<K, V>(s: Entries<K, V>, k: K)
    requires Distinct(s)
    ensures Distinct(Without(s, k)) && |Without(s, k)| == if Has(s, k) then |s| - 1 else |s|
  {
    if s != [] {
      WithoutSize(s[1..], k);
      WithoutHas(s[1..], k, s[0].key);
      assert s[0].key != k ==> Without(s, k)[1..] == Without(s[1..], k);
    }
  }

  lemma {:induction false} WithoutAbsent<K, V>(s: Entries<K, V>, k: K)
    requires !Has(s, k)
    ensures Without(s, k) == s
  {
    if s != [] {
      WithoutAbsent(s[1..], k);
    }
  }

  lemma {:induction false} WithoutCommutes<K, V>(s: Entries<K, V>, a: K, b: K)
    ensures Without(Without(s, a), b) == Without(Without(s, b), a)
  {
    if s != [] {
      WithoutCommutes(s[1..], a, b);
      assert s[0].key != a ==> Without(s, a)[1..] == Without(s[1..], a);
      assert s[0].key != b ==> Without(s, b)[1..] == Without(s[1..], b);
    }
  }

  lemma {:induction false} Front<K, V>(e: Entry<K, V>, s: Entries<K, V>, k: K)
    ensures Without([e] + s, k) == if e.key == k then Without(s, k) else [e] + Without(s, k)
    ensures Has([e] + s, k) <==> e.key == k || Has(s, k)
    ensures Has([e] + s, k) ==> Find([e] + s, k) == if e.key == k then e.value else Find(s, k)
    ensures Distinct([e] + s) <==> !Has(s, e.key) && Distinct(s)
  {}

  /** Cutting off the last entry. */
  lemma {:induction false} Cut<K, V>(s: Entries<K, V>, k: K)
    requires s != [] && Distinct(s)
    ensures var init, last := s[..|s| - 1], s[|s| - 1];
            && Distinct(init) && Has(s, last.key) && init == Without(s, last.key)
            && (Has(init, k) <==> Has(s, k) && k != last.key)
            && (Has(init, k) ==> Find(init, k) == Find(s, k))
  {
    var last := s[|s| - 1];
    if |s| == 1 {
      assert s[1..] == [];
    } else {
      Cut(s[1..], k);
      Cut(s[1..], s[0].key);
      assert s[1..][|s[1..]| - 1] == last;
      assert s[..|s| - 1] == [s[0]] + s[1..][..|s[1..]| - 1];
      Front(s[0], s[1..][..|s[1..]| - 1], k);
    }
  }

  // ---------- Invariants of every trace ----------

  /** No key occurs twice and the bound is kept, whatever the trace. */
  lemma {:induction false} RunOk<K, V>(t: seq<Op<K, V>>, max: nat)
    ensures Distinct(Run(t, max)) && |Run(t, max)| <= max
  {
    if t != [] {
      RunOk(t[..|t| - 1], max);
      ApplyOk(Run(t[..|t| - 1], max), t[|t| - 1], max);
    }
  }

  lemma {:induction false} ApplyOk<K, V>(s: Entries<K, V>, op: Op<K, V>, max: nat)
    requires Distinct(s) && |s| <= max
    ensures Distinct(Apply(s, op, max)) && |Apply(s, op, max)| <= max
  {
    WithoutSize(s, op.key);
    WithoutHas(s, op.key, op.key);
    if op.Put? {
      var all := [Entry(op.key, op.value)] + Without(s, op.key);
      Front(all[0], Without(s, op.key), op.key);
      Cut(all, op.key);
    } else if op.Get? && Has(s, op.key) {
      Front(Entry(op.key, Find(s, op.key)), Without(s, op.key), op.key);
    }
  }

  /** What one operation does to the entry of a key. */
  lemma {:induction false} ApplyHas<K, V>(s: Entries<K, V>, op: Op<K, V>, max: nat, k: K)
    requires Distinct(s)
    ensures Has(Apply(s, op, max), k) && k != op.key ==> Has(s, k) && Find(Apply(s, op, max), k) == Find(s, k)
    ensures Has(Apply(s, op, max), k) && k == op.key ==>
              && !op.Drop?
              && (op.Put? ==> Find(Apply(s, op, max), k) == op.value)
              && (op.Get? ==> Has(s, k) && Find(Apply(s, op, max), k) == Find(s, k))
  {
    WithoutHas(s, op.key, k);
    WithoutHas(s, op.key, op.key);
    WithoutSize(s, op.key);
    if op.Put? {
      var all := [Entry(op.key, op.value)] + Without(s, op.key);
      Front(all[0], Without(s, op.key), k);
      Front(all[0], Without(s, op.key), op.key);
      Cut(all, k);
    } else if op.Get? && Has(s, op.key) {
      Front(Entry(op.key, Find(s, op.key)), Without(s, op.key), k);
    }
  }

  /** The value last put for a key and not dropped since. */
  function LatestPut<K(==), V>(t: seq<Op<K, V>>, k: K): Option<V> {
    if t == [] then None
    else
      match t[|t| - 1]
      case Put(k', v) => if k' == k then Some(v) else LatestPut(t[..|t| - 1], k)
      case Drop(k') => if k' == k then None else LatestPut(t[..|t| - 1], k)
      case Get(_) => LatestPut(t[..|t| - 1], k)
  }

  lemma {:induction false} HoldsLatest<K, V>(t: seq<Op<K, V>>, max: nat, k: K)
    requires Has(Run(t, max), k)
    ensures LatestPut(t, k) == Some(Find(Run(t, max), k))
  {
    if t != [] {
      var t0, op := t[..|t| - 1], t[|t| - 1];
      RunOk(t0, max);
      ApplyHas(Run(t0, max), op, max, k);
      if !(op.Put? && op.key == k) {
        HoldsLatest(t0, max, k);
      }
    }
  }

  // ---------- Recency ----------

  predicate Uses<K(==), V>(s: Entries<K, V>, op: Op<K, V>, k: K) {
    op.key == k && (op.Put? || (op.Get? && Has(s, k)))
  }

  /** When k was last put, or got with success: 0 for never. */
  function LastUse<K(==), V>(t: seq<Op<K, V>>, max: nat, k: K): (n: nat)
    ensures n <= |t|
  {
    if t == [] then 0
    else if Uses(Run(t[..|t| - 1], max), t[|t| - 1], k) then |t|
    else LastUse(t[..|t| - 1], max, k)
  }

  /** Each entry was last used after all those behind it. */
  ghost predicate ByRecency<K(!new), V(!new)>(s: Entries<K, V>, t: seq<Op<K, V>>, max: nat) {
    s == [] ||
    (&& (forall k :: Has(s[1..], k) ==> LastUse(t, max, k) < LastUse(t, max, s[0].key))
     && ByRecency(s[1..], t, max))
  }

  lemma {:induction false} WithoutByRecency<K(!new), V(!new)>(s: Entries<K, V>, k: K, t: seq<Op<K, V>>, max: nat)
    requires ByRecency(s, t, max)
    ensures ByRecency(Without(s, k), t, max)
  {
    if s != [] {
      WithoutByRecency(s[1..], k, t, max);
      if s[0].key != k {
        assert Without(s, k)[1..] == Without(s[1..], k);
        forall j | Has(Without(s[1..], k), j) ensures LastUse(t, max, j) < LastUse(t, max, s[0].key) {
          WithoutHas(s[1..], k, j);
        }
      }
    }
  }

  /** A later operation on another key leaves the order alone. */
  lemma {:induction false} OthersByRecency<K(!new), V(!new)>(s: Entries<K, V>, t: seq<Op<K, V>>, max: nat)
    requires t != [] && ByRecency(s, t[..|t| - 1], max)
    requires forall k :: Has(s, k) ==> !Uses(Run(t[..|t| - 1], max), t[|t| - 1], k)
    ensures ByRecency(s, t, max)
  {
    if s != [] {
      assert forall k :: Has(s[1..], k) ==> Has(s, k);
      assert Has(s, s[0].key);
      OthersByRecency(s[1..], t, max);
    }
  }

  lemma {:induction false} CutByRecency<K(!new), V(!new)>(s: Entries<K, V>, t: seq<Op<K, V>>, max: nat)
    requires s != [] && Distinct(s) && ByRecency(s, t, max)
    ensures ByRecency(s[..|s| - 1], t, max)
    ensures forall k :: Has(s[..|s| - 1], k) ==> LastUse(t, max, s[|s| - 1].key) < LastUse(t, max, k)
  {
    var last := s[|s| - 1];
    Cut(s, last.key);
    WithoutByRecency(s, last.key, t, max);
    forall k | Has(s[..|s| - 1], k) ensures LastUse(t, max, last.key) < LastUse(t, max, k) {
      Cut(s, k);
      OldestLast(s, t, max, k);
    }
  }

  lemma {:induction false} OldestLast<K(!new), V(!new)>(s: Entries<K, V>, t: seq<Op<K, V>>, max: nat, k: K)
    requires s != [] && Distinct(s) && ByRecency(s, t, max) && Has(s, k) && k != s[|s| - 1].key
    ensures LastUse(t, max, s[|s| - 1].key) < LastUse(t, max, k)
  {
    assert |s| > 1;
    assert s[1..][|s[1..]| - 1] == s[|s| - 1];
    if s[0].key == k {
      Cut(s[1..], k);
    } else {
      OldestLast(s[1..], t, max, k);
    }
  }

  /** Over every trace the entries are in order of last use. */
  lemma {:induction false} OrderedByRecency<K(!new), V(!new)>(t: seq<Op<K, V>>, max: nat)
    ensures ByRecency(Run(t, max), t, max)
  {
    if t != [] {
      var t0, op := t[..|t| - 1], t[|t| - 1];
      var s := Run(t0, max);
      var rest := Without(s, op.key);
      OrderedByRecency(t0, max);
      WithoutByRecency(s, op.key, t0, max);
      forall k | Has(rest, k) ensures !Uses(s, op, k) {
        WithoutHas(s, op.key, k);
      }
      OthersByRecency(rest, t, max);
      if op.Drop? || (op.Get? && !Has(s, op.key)) {
        WithoutUnused(s, op, t, max);
      } else {
        var e := if op.Put? then Entry(op.key, op.value) else Entry(op.key, Find(s, op.key));
        assert Uses(s, op, op.key);
        NewestFirst(e, rest, t, max);
        RunOk(t0, max);
        WithoutSize(s, op.key);
        WithoutHas(s, op.key, op.key);
        Front(e, rest, op.key);
        CutByRecency([e] + rest, t, max);
      }
    }
  }

  lemma {:induction false} WithoutUnused<K(!new), V(!new)>(s: Entries<K, V>, op: Op<K, V>, t: seq<Op<K, V>>, max: nat)
    requires t != [] && op == t[|t| - 1] && s == Run(t[..|t| - 1], max) && (op.Drop? || (op.Get? && !Has(s, op.key)))
    requires ByRecency(Without(s, op.key), t, max)
    ensures ByRecency(Run(t, max), t, max)
  {
    if op.Get? {
      WithoutAbsent(s, op.key);
    }
  }

  lemma {:induction false} NewestFirst<K(!new), V(!new)>(e: Entry<K, V>, rest: Entries<K, V>, t: seq<Op<K, V>>, max: nat)
    requires t != [] && Uses(Run(t[..|t| - 1], max), t[|t| - 1], e.key) && ByRecency(rest, t, max) && !Has(rest, e.key)
    ensures ByRecency([e] + rest, t, max)
  {}

  /** What a put can lose besides its own key: only when the cache was full of other keys,
      and then only the one whose last use is the oldest. */
  lemma {:induction false} Evicts<K(!new), V(!new)>(t: seq<Op<K, V>>, max: nat, k: K, v: V, lost: K)
    requires var s, s' := Run(t, max), Run(t + [Put(k, v)], max);
             lost != k && Has(s, lost) && !Has(s', lost)
    ensures var s, s' := Run(t, max), Run(t + [Put(k, v)], max);
            && |s| == max && !Has(s, k)
            && forall j :: Has(s, j) && j != lost ==> LastUse(t, max, lost) < LastUse(t, max, j) && Has(s', j)
  {
    var s := Run(t, max);
    var t' := t + [Put(k, v)];
    assert t'[..|t'| - 1] == t;
    RunOk(t, max);
    OrderedByRecency(t, max);
    WithoutSize(s, k);
    WithoutHas(s, k, lost);
    WithoutHas(s, k, k);
    var e, rest := Entry(k, v), Without(s, k);
    var all := [e] + rest;
    Front(e, rest, lost);
    Front(e, rest, k);
    Cut(all, lost);
    assert all[|all| - 1] == rest[|rest| - 1];
    WithoutAbsent(s, k);
    forall j | Has(s, j) && j != lost
      ensures LastUse(t, max, lost) < LastUse(t, max, j) && Has(Run(t', max), j)
    {
      Front(e, rest, j);
      Cut(all, j);
      OldestLast(s, t, max, j);
    }
  }

  /** What a cache that holds anything at all has after a put: the key put, with its value,
      and every other key it had, but for the one least recently used if it was full and the
      key is new. */
  lemma {:induction false} PutKeeps<K(!new), V(!new)>(t: seq<Op<K, V>>, max: nat, k: K, v: V, j: K)
    requires max > 0
    ensures var s, s' := Run(t, max), Run(t + [Put(k, v)], max);
            && Has(s', k) && Find(s', k) == v
            && (Has(s', j) <==>
                j == k || (Has(s, j) && (|s| < max || Has(s, k) || exists i :: Has(s, i) && LastUse(t, max, i) < LastUse(t, max, j))))
  {
    hide LastUse;
    var s, t' := Run(t, max), t + [Put(k, v)];
    assert t'[..|t'| - 1] == t;
    RunOk(t, max);
    PutFound(s, k, v, max);
    ApplyHas(s, Put(k, v), max, j);
    if j != k && Has(s, j) {
      if !Has(Run(t', max), j) {
        Evicts(t, max, k, v, j);
        assert forall i :: Has(s, i) && i != j ==> LastUse(t, max, j) < LastUse(t, max, i);
      } else if |s| == max && !Has(s, k) {
        var lost := PutLoses(s, k, v, max);
        assert Run(t', max) == Apply(s, Put(k, v), max);
        Evicts(t, max, k, v, lost);
        assert Has(s, lost) && LastUse(t, max, lost) < LastUse(t, max, j);
      }
    }
  }

  lemma {:induction false} PutFound<K, V>(s: Entries<K, V>, k: K, v: V, max: nat)
    requires Distinct(s) && max > 0
    ensures Has(Apply(s, Put(k, v), max), k) && Find(Apply(s, Put(k, v), max), k) == v
  {}

  /** A new key in a full cache drives one out. */
  lemma {:induction false} PutLoses<K, V>(s: Entries<K, V>, k: K, v: V, max: nat) returns (lost: K)
    requires Distinct(s) && |s| == max > 0 && !Has(s, k)
    ensures lost != k && Has(s, lost) && !Has(Apply(s, Put(k, v), max), lost)
  {
    WithoutAbsent(s, k);
    var all := [Entry(k, v)] + s;
    lost := s[|s| - 1].key;
    Cut(s, lost);
    Front(all[0], s, k);
    Cut(all, lost);
    assert all[|all| - 1] == s[|s| - 1];
  }

  /** A get loses nothing and brings nothing, and a drop takes its key alone. */
  lemma {:induction false} GetAndDropKeep<K, V>(t: seq<Op<K, V>>, max: nat, k: K, j: K)
    ensures Has(Run(t + [Get(k)], max), j) <==> Has(Run(t, max), j)
    ensures Has(Run(t, max), j) ==> Find(Run(t + [Get(k)], max), j) == Find(Run(t, max), j)
    ensures Has(Run(t + [Drop(k)], max), j) <==> Has(Run(t, max), j) && j != k
  {
    var s := Run(t, max);
    assert (t + [Op<K, V>.Get(k)])[..|t|] == t && (t + [Op<K, V>.Drop(k)])[..|t|] == t;
    WithoutHas(s, k, j);
    if Has(s, k) { Front(Entry(k, Find(s, k)), Without(s, k), j); }
  }

  // ---------- Stack inclusion ----------

  /** a is b with some entries left out. */
  predicate Subsequence<T(==)>(a: seq<T>, b: seq<T>) {
    a == [] || (b != [] && ((a[0] == b[0] && Subsequence(a[1..], b[1..])) || Subsequence(a, b[1..])))
  }

  lemma {:induction false} SubsequenceSelf<T>(a: seq<T>)
    ensures Subsequence(a, a)
  {
    if a != [] {
      SubsequenceSelf(a[1..]);
    }
  }

  lemma {:induction false} SubsequenceTransitive<T>(a: seq<T>, b: seq<T>, c: seq<T>)
    requires Subsequence(a, b) && Subsequence(b, c)
    ensures Subsequence(a, c)
    decreases |c|
  {
    if a != [] && b != [] {
      if b[0] == c[0] && Subsequence(b[1..], c[1..]) {
        if a[0] == b[0] && Subsequence(a[1..], b[1..]) {
          SubsequenceTransitive(a[1..], b[1..], c[1..]);
        } else {
          SubsequenceTransitive(a, b[1..], c[1..]);
        }
      } else {
        SubsequenceTransitive(a, b, c[1..]);
      }
    }
  }

  lemma {:induction false} WithoutSubsequence<K, V>(s: Entries<K, V>, k: K)
    ensures Subsequence(Without(s, k), s)
  {
    if s != [] {
      WithoutSubsequence(s[1..], k);
      if s[0].key != k {
        assert Without(s, k)[1..] == Without(s[1..], k);
      }
    }
  }

  /** The smaller cache lacks at most one entry of the larger. */
  ghost predicate OneBehind<K(!new), V(!new)>(small: Entries<K, V>, large: Entries<K, V>, max: nat) {
    && Distinct(large) && |small| <= max && |large| <= max + 1
    && (small == large || exists k :: Has(large, k) && small == Without(large, k))
  }

  lemma {:induction false} OneBehindDrop<K(!new), V(!new)>(small: Entries<K, V>, large: Entries<K, V>, max: nat, k: K)
    requires OneBehind(small, large, max)
    ensures OneBehind(Without(small, k), Without(large, k), max)
  {
    WithoutSize(large, k);
    if small != large {
      var m :| Has(large, m) && small == Without(large, m);
      WithoutSize(large, m);
      WithoutSize(small, k);
      WithoutCommutes(large, m, k);
      WithoutHas(large, k, m);
      if m == k {
        WithoutHas(large, k, k);
        WithoutAbsent(Without(large, k), k);
      }
    }
  }

  /** Putting a new entry in front of both. */
  lemma {:induction false} OneBehindPush<K(!new), V(!new)>(small: Entries<K, V>, large: Entries<K, V>, max: nat, e: Entry<K, V>)
    requires OneBehind(small, large, max) && !Has(large, e.key)
    ensures OneBehind(Bound([e] + small, max), Bound([e] + large, max + 1), max)
  {
    var l := [e] + large;
    Front(e, large, e.key);
    if |l| > max + 1 {
      PushFull(small, large, max, e);
    } else if small == large {
      Cut(l, e.key);
    } else {
      var m :| Has(large, m) && small == Without(large, m);
      WithoutSize(large, m);
      Front(e, large, m);
    }
  }

  /** Both full: each loses its last entry. */
  lemma {:induction false} PushFull<K(!new), V(!new)>(small: Entries<K, V>, large: Entries<K, V>, max: nat, e: Entry<K, V>)
    requires OneBehind(small, large, max) && !Has(large, e.key) && |large| == max + 1
    ensures OneBehind(Bound([e] + small, max), Bound([e] + large, max + 1), max)
  {
    var m :| Has(large, m) && small == Without(large, m);
    var last, l := large[max].key, [e] + large[..max];
    WithoutSize(large, m);
    assert Bound([e] + large, max + 1) == l;
    Cut(large, m);
    Cut(large, e.key);
    Front(e, large[..max], e.key);
    if last == m {
      Cut(l, m);
      assert Bound([e] + small, max) == l[..|l| - 1];
    } else {
      Front(e, large[..max], m);
      CutSmall(small, large, m, e);
    }
  }

  lemma {:induction false} CutSmall<K(!new), V(!new)>(small: Entries<K, V>, large: Entries<K, V>, m: K, e: Entry<K, V>)
    requires large != [] && Distinct(large) && small == Without(large, m) && large[|large| - 1].key != m
    ensures small != [] && ([e] + small)[..|small|] == [e] + Without(large[..|large| - 1], m)
  {
    var last := large[|large| - 1].key;
    LastStays(large, m);
    WithoutSize(large, m);
    Cut(large, m);
    Cut(small, last);
    WithoutCommutes(large, m, last);
  }

  lemma {:induction false} LastStays<K, V>(s: Entries<K, V>, k: K)
    requires s != [] && s[|s| - 1].key != k
    ensures var r := Without(s, k); r != [] && r[|r| - 1] == s[|s| - 1]
  {
    if |s| > 1 {
      LastStays(s[1..], k);
    }
  }

  /** Moving an entry to the front, wherever it is present. */
  lemma {:induction false} OneBehindTouch<K(!new), V(!new)>(small: Entries<K, V>, large: Entries<K, V>, max: nat, k: K)
    requires OneBehind(small, large, max) && Has(large, k)
    ensures OneBehind(Apply(small, Get(k), max), Apply(large, Get(k), max + 1), max)
  {
    var e, rest := Entry(k, Find(large, k)), Without(large, k);
    WithoutHas(large, k, k);
    WithoutSize(large, k);
    Front(e, rest, k);
    if small != large {
      var m :| Has(large, m) && small == Without(large, m);
      WithoutHas(large, m, k);
      Front(e, rest, m);
      if m == k {
        WithoutAbsent(rest, k);
      } else {
        WithoutSize(large, m);
        WithoutSize(small, k);
        WithoutHas(large, k, m);
        WithoutCommutes(large, m, k);
      }
    }
  }

  lemma OneBehindApply<K(!new), V(!new)>(small: Entries<K, V>, large: Entries<K, V>, max: nat, op: Op<K, V>)
    requires OneBehind(small, large, max)
    ensures OneBehind(Apply(small, op, max), Apply(large, op, max + 1), max)
  {
    match op
    case Drop(k) => OneBehindDrop(small, large, max, k);
    case Get(k) =>
      if Has(large, k) {
        OneBehindTouch(small, large, max, k);
      } else if small != large {
        var m :| Has(large, m) && small == Without(large, m);
        WithoutHas(large, m, k);
      }
    case Put(k, v) =>
      OneBehindDrop(small, large, max, k);
      WithoutHas(large, k, k);
      OneBehindPush(Without(small, k), Without(large, k), max, Entry(k, v));
  }

  lemma {:induction false} RunOneBehind<K(!new), V(!new)>(t: seq<Op<K, V>>, max: nat)
    ensures OneBehind(Run(t, max), Run(t, max + 1), max)
  {
    if t != [] {
      RunOneBehind(t[..|t| - 1], max);
      OneBehindApply(Run(t[..|t| - 1], max), Run(t[..|t| - 1], max + 1), max, t[|t| - 1]);
    }
  }

  /** A smaller cache always holds a subsequence of what a larger one holds. */
  lemma {:induction false} StackInclusion<K(!new), V(!new)>(t: seq<Op<K, V>>, small: nat, large: nat)
    requires small <= large
    ensures Subsequence(Run(t, small), Run(t, large))
    decreases large - small
  {
    if small == large {
      SubsequenceSelf(Run(t, small));
    } else {
      var a, b := Run(t, small), Run(t, small + 1);
      RunOneBehind(t, small);
      if a == b {
        SubsequenceSelf(a);
      } else {
        var k :| Has(b, k) && a == Without(b, k);
        WithoutSubsequence(b, k);
      }
      StackInclusion(t, small + 1, large);
      SubsequenceTransitive(a, b, Run(t, large));
    }
  }
}
