/** RPC serialization: fundamentals as their raw bytes, strings and vectors as a
    32-bit little-endian count followed by the elements, argument packs one after
    another. */
module Serialization {
  import opened Machine
  import opened MessageQueue

  /** A serializable type; Fund gives its sizeof. */
  datatype Ty = Fund(size: nat) | Str | Vec(elem: Ty)

  datatype Value = FundV(bytes: seq<Octet>) | StrV(chars: seq<Octet>) | VecV(items: seq<Value>)

  predicate HasType(v: Value, t: Ty)
    decreases t
  {
    match t
    case Fund(n) => v.FundV? && |v.bytes| == n
    case Str => v.StrV? && |v.chars| < U32
    case Vec(e) => v.VecV? && |v.items| < U32 && forall i :: 0 <= i < |v.items| ==> HasType(v.items[i], e)
  }

  predicate AllHaveType(vs: seq<Value>, ts: seq<Ty>) {
    |vs| == |ts| && forall i :: 0 <= i < |vs| ==> HasType(vs[i], ts[i])
  }

  function EncodeSize(n: nat): (s: seq<Octet>)
    requires n < U32
    ensures |s| == 4
  {
    [n % 256, n / 256 % 256, n / 65536 % 256, n / 16777216]
  }

  function DecodeSize(s: seq<Octet>): nat
    requires |s| == 4
  {
    (s[0] as int) + 256 * (s[1] as int) + 65536 * (s[2] as int) + 16777216 * (s[3] as int)
  }

  /** Counts that do not fit a size_t cannot arise; they are given no bytes. */
  function Count(n: nat): seq<Octet> {
    if n < U32 then EncodeSize(n) else []
  }

  function Serialize(v: Value): seq<Octet>
    decreases v, 0
  {
    match v
    case FundV(b) => b
    case StrV(c) => Count(|c|) + c
    case VecV(items) => Count(|items|) + SerializeAll(items)
  }

  function SerializeAll(vs: seq<Value>): seq<Octet>
    decreases vs, 1
  {
    if vs == [] then [] else Serialize(vs[0]) + SerializeAll(vs[1..])
  }

  /** Reading from a stream: the value and what is left, or None once it runs dry. */
  function Take(s: seq<Octet>, n: nat): Option<(seq<Octet>, seq<Octet>)> {
    if n <= |s| then Some((s[..n], s[n..])) else None
  }

  function Deserialize(t: Ty, s: seq<Octet>): Option<(Value, seq<Octet>)>
    decreases t, 0, 0
  {
    match t
    case Fund(n) =>
      var r := Take(s, n);
      if r.None? then None else Some((FundV(r.value.0), r.value.1))
    case Str =>
      var h := Take(s, 4);
      if h.None? then None else
      var r := Take(h.value.1, DecodeSize(h.value.0));
      if r.None? then None else Some((StrV(r.value.0), r.value.1))
    case Vec(e) =>
      var h := Take(s, 4);
      if h.None? then None else
      var r := DeserializeMany(e, DecodeSize(h.value.0), h.value.1);
      if r.None? then None else Some((VecV(r.value.0), r.value.1))
  }

  function DeserializeMany(e: Ty, n: nat, s: seq<Octet>): Option<(seq<Value>, seq<Octet>)>
    decreases e, 1, n
  {
    if n == 0 then Some(([], s)) else
    var r := Deserialize(e, s);
    if r.None? then None else
    var q := DeserializeMany(e, n - 1, r.value.1);
    if q.None? then None else Some(([r.value.0] + q.value.0, q.value.1))
  }

  function DeserializeAll(ts: seq<Ty>, s: seq<Octet>): Option<(seq<Value>, seq<Octet>)>
    decreases |ts|
  {
    if ts == [] then Some(([], s)) else
    var r := Deserialize(ts[0], s);
    if r.None? then None else
    var q := DeserializeAll(ts[1..], r.value.1);
    if q.None? then None else Some(([r.value.0] + q.value.0, q.value.1))
  }

  // ---------- Round trips ----------

  lemma SizeRoundTrip(n: nat)
    requires n < U32
    ensures DecodeSize(EncodeSize(n)) == n
  {
    assert n / 65536 == n / 256 / 256;
    assert n / 16777216 == n / 65536 / 256;
  }

  /** On the wire: a fundamental is its bytes; otherwise a count of four octets, the least
      significant first, and then the characters, or the items one after another. */
  lemma {:induction false} WireFormat(v: Value)
    requires v.FundV? || (v.StrV? && |v.chars| < U32) || (v.VecV? && |v.items| < U32)
    ensures v.FundV? ==> Serialize(v) == v.bytes
    ensures !v.FundV? ==>
            var s, n := Serialize(v), if v.StrV? then |v.chars| else |v.items|;
            && |s| >= 4 && s[4..] == (if v.StrV? then v.chars else SerializeAll(v.items))
            && n == (s[0] as int) + 0x100 * (s[1] as int) + 0x1_0000 * (s[2] as int) + 0x100_0000 * (s[3] as int)
  {
    if !v.FundV? { SizeRoundTrip(if v.StrV? then |v.chars| else |v.items|); }
  }

  lemma TakeFront(a: seq<Octet>, b: seq<Octet>)
    ensures Take(a + b, |a|) == Some((a, b))
  {}

  /** Deserializing a value's bytes followed by anything yields the value and leaves
      exactly what followed. */
  lemma {:induction false} RoundTrip(t: Ty, v: Value, suffix: seq<Octet>)
    requires HasType(v, t)
    ensures Deserialize(t, Serialize(v) + suffix) == Some((v, suffix))
    decreases t, 0, 0
  {
    match t {
      case Fund(n) =>
        TakeFront(v.bytes, suffix);
      case Str =>
        var n := |v.chars|;
        SizeRoundTrip(n);
        assert Serialize(v) + suffix == EncodeSize(n) + (v.chars + suffix);
        TakeFront(EncodeSize(n), v.chars + suffix);
        TakeFront(v.chars, suffix);
      case Vec(e) =>
        var n := |v.items|;
        SizeRoundTrip(n);
        assert Serialize(v) + suffix == EncodeSize(n) + (SerializeAll(v.items) + suffix);
        TakeFront(EncodeSize(n), SerializeAll(v.items) + suffix);
        RoundTripMany(e, v.items, suffix);
    }
  }

  lemma {:induction false} RoundTripMany(e: Ty, vs: seq<Value>, suffix: seq<Octet>)
    requires forall i :: 0 <= i < |vs| ==> HasType(vs[i], e)
    ensures DeserializeMany(e, |vs|, SerializeAll(vs) + suffix) == Some((vs, suffix))
    decreases e, 1, |vs|
  {
    if vs == [] {
      assert SerializeAll(vs) + suffix == suffix;
    } else {
      var rest := SerializeAll(vs[1..]) + suffix;
      assert SerializeAll(vs) + suffix == Serialize(vs[0]) + rest;
      RoundTrip(e, vs[0], rest);
      RoundTripMany(e, vs[1..], suffix);
      assert [vs[0]] + vs[1..] == vs;
    }
  }

  /** The same for argument packs of any length and mixture of types. */
  lemma {:induction false} RoundTripAll(ts: seq<Ty>, vs: seq<Value>, suffix: seq<Octet>)
    requires AllHaveType(vs, ts)
    ensures DeserializeAll(ts, SerializeAll(vs) + suffix) == Some((vs, suffix))
    decreases |ts|
  {
    if ts == [] {
      assert SerializeAll(vs) + suffix == suffix;
    } else {
      var rest := SerializeAll(vs[1..]) + suffix;
      assert SerializeAll(vs) + suffix == Serialize(vs[0]) + rest;
      RoundTrip(ts[0], vs[0], rest);
      RoundTripAll(ts[1..], vs[1..], suffix);
      assert [vs[0]] + vs[1..] == vs;
    }
  }

  /** Encodings of one type are prefix-free, so a stream can be read in only one way. */
  lemma {:induction false} PrefixFree(t: Ty, v: Value, w: Value, x: seq<Octet>, y: seq<Octet>)
    requires HasType(v, t) && HasType(w, t) && Serialize(v) + x == Serialize(w) + y
    ensures v == w && x == y
  {
    RoundTrip(t, v, x);
    RoundTrip(t, w, y);
  }

  // ---------- The stream code ----------

  class OutStream {
    var data: seq<Octet>
    constructor () ensures data == [] { data := []; }
  }

  class InStream {
    var data: seq<Octet>
    constructor (s: seq<Octet>) ensures data == s { data := s; }
  }

  /** serialize(ostream, value), with the string and vector loops. */
  method WriteValue(os: OutStream, t: Ty, v: Value)
    requires HasType(v, t)
    modifies os
    ensures os.data == old(os.data) + Serialize(v)
    decreases t
  {
    match t {
      case Fund(_) =>
        os.data := os.data + v.bytes;
      case Str =>
        os.data := os.data + EncodeSize(|v.chars|);
        var i := 0;
        while i < |v.chars|
          invariant i <= |v.chars|
          invariant os.data == old(os.data) + EncodeSize(|v.chars|) + v.chars[..i]
        {
          os.data := os.data + [v.chars[i]];
          i := i + 1;
        }
      case Vec(e) =>
        os.data := os.data + EncodeSize(|v.items|);
        var i := 0;
        while i < |v.items|
          invariant i <= |v.items|
          invariant os.data == old(os.data) + EncodeSize(|v.items|) + SerializeAll(v.items[..i])
        {
          WriteValue(os, e, v.items[i]);
          SerializeAllSnoc(v.items[..i], v.items[i]);
          assert v.items[..i] + [v.items[i]] == v.items[..i + 1];
          i := i + 1;
        }
        assert v.items[..i] == v.items;
    }
  }

  lemma {:induction false} SerializeAllSnoc(vs: seq<Value>, v: Value)
    ensures SerializeAll(vs + [v]) == SerializeAll(vs) + Serialize(v)
  {
    if vs == [] {
      assert SerializeAll([v]) == Serialize(v);
    } else {
      assert (vs + [v])[1..] == vs[1..] + [v];
      SerializeAllSnoc(vs[1..], v);
    }
  }

  method ReadBytes(ins: InStream, n: nat) returns (r: Option<seq<Octet>>)
    modifies ins
    ensures var e := Take(old(ins.data), n);
            if e.Some? then r == Some(e.value.0) && ins.data == e.value.1 else r == None
  {
    if n <= |ins.data| {
      r := Some(ins.data[..n]);
      ins.data := ins.data[n..];
    } else {
      r := None;
    }
  }

  /** deserialize(istream, value): the vector loop reads element by element. */
  method ReadValue(ins: InStream, t: Ty) returns (r: Option<Value>)
    modifies ins
    ensures var e := Deserialize(t, old(ins.data));
            if e.Some? then r == Some(e.value.0) && ins.data == e.value.1 else r == None
    decreases t
  {
    if t.Fund? {
      var b := ReadBytes(ins, t.size);
      return if b.Some? then Some(FundV(b.value)) else None;
    }
    var h := ReadBytes(ins, 4);
    if h == None {
      return None;
    }
    var n := DecodeSize(h.value);
    if t.Str? {
      var b := ReadBytes(ins, n);
      return if b.Some? then Some(StrV(b.value)) else None;
    }
    ghost var start := ins.data;
    var items := [];
    var i := 0;
    ManyStep(t.elem, n, start, items, i, start);
    while i < n
      invariant i <= n
      invariant ManyFrom(t.elem, n, start, items, i, ins.data)
    {
      ManyStep(t.elem, n, start, items, i, ins.data);
      var v := ReadValue(ins, t.elem);
      if v == None {
        return None;
      }
      items := items + [v.value];
      i := i + 1;
    }
    assert items + [] == items;
    r := Some(VecV(items));
  }

  lemma {:induction false} ManyStep(e: Ty, n: nat, start: seq<Octet>, items: seq<Value>, i: nat, s: seq<Octet>)
    requires i <= n
    ensures i == 0 ==> ManyFrom(e, n, s, [], 0, s)
    ensures i < n && ManyFrom(e, n, start, items, i, s) ==>
              var v := Deserialize(e, s);
              if v.None? then DeserializeMany(e, n, start) == None
              else ManyFrom(e, n, start, items + [v.value.0], i + 1, v.value.1)
  {
    var all := DeserializeMany(e, n, s);
    assert all.Some? ==> [] + all.value.0 == all.value.0;
    var v := Deserialize(e, s);
    if i < n && v.Some? {
      var q := DeserializeMany(e, n - i - 1, v.value.1);
      assert q.Some? ==> items + ([v.value.0] + q.value.0) == items + [v.value.0] + q.value.0;
    }
  }

  /** After i of n elements, the rest of the run decides the outcome. */
  ghost predicate ManyFrom(e: Ty, n: nat, start: seq<Octet>, items: seq<Value>, i: nat, s: seq<Octet>)
    requires i <= n
  {
    var rest := DeserializeMany(e, n - i, s);
    DeserializeMany(e, n, start) == if rest.None? then None else Some((items + rest.value.0, rest.value.1))
  }
}
