/** tfp_vsnprintf: what it returns and what it writes, for any destination and capacity. */
module Snprintf {
  import opened Machine
  import opened Digits
  import opened HeapMemory
  import opened Printf

  /** The byte memory with a text written at address p. */
  function Put(bytes: Bytes, p: int, text: string): Bytes {
    if text == [] then bytes else Put(bytes, p, text[..|text| - 1])[p + |text| - 1 := text[|text| - 1] as int]
  }

  lemma {:induction false} PutIs(bytes: Bytes, p: int, text: string, a: int)
    ensures Byte(Put(bytes, p, text), a) == if p <= a < p + |text| then text[a - p] as int else Byte(bytes, a)
  {
    if text != [] {
      PutIs(bytes, p, text[..|text| - 1], a);
    }
  }

  /** The capacity: one less than the size, as an unsigned word. */
  function Capacity(size: nat): nat { if size == 0 then U32 - 1 else size - 1 }

  function Least(a: nat, b: nat): nat { if a < b then a else b }

  /** The part of the text that is stored: none without a destination. */
  function Kept(str: nat, size: nat, text: string): string {
    if str == 0 then "" else text[..Least(|text|, Capacity(size))]
  }

  /** The terminator goes after the stored part, if the size is not zero. */
  function AfterWrite(bytes: Bytes, str: nat, size: nat, text: string): Bytes {
    var b := Put(bytes, str, Kept(str, size, text));
    if size > 0 then b[str + Least(|text|, Capacity(size)) := 0] else b
  }

  predicate Writes(str: nat, size: nat, text: string, a: int) {
    || str <= a < str + |Kept(str, size, text)|
    || (size > 0 && a == str + Least(|text|, Capacity(size)))
  }

  lemma {:induction false} KeepNext(bytes: Bytes, str: nat, size: nat, text: string, n: nat)
    requires n < |text|
    ensures Put(bytes, str, Kept(str, size, text[..n + 1])) ==
            var b := Put(bytes, str, Kept(str, size, text[..n]));
            if str != 0 && n < Capacity(size) then b[str + n := text[n] as int] else b
  {
    if n < Capacity(size) {
      assert text[..n + 1][..n] == text[..n];
      assert text[..n + 1][..n + 1] == text[..n + 1] && text[..n][..n] == text[..n];
    } else {
      assert text[..n + 1][..Capacity(size)] == text[..n][..Capacity(size)];
    }
  }

  /** The sink: called for each character in turn, it counts them all and stores while
      there is room. A size of zero makes the capacity the largest word. */
  method Vsnprintf(bytes: Bytes, str: nat, size: nat, fmt: CStr, args: seq<Arg>, p: Field) returns (r: Bytes, n: nat)
    requires size < U32 && Formatted(fmt, args, p).Some? && |Formatted(fmt, args, p).value| < U32 / 2
    ensures n == |Formatted(fmt, args, p).value|
    ensures r == AfterWrite(bytes, str, size, Formatted(fmt, args, p).value)
  {
    hide Formatted;
    var text := TfpFormat(fmt, args, p);
    var capacity := Capacity(size);
    r, n := bytes, 0;
    while n < |text|
      invariant n <= |text| && r == Put(bytes, str, Kept(str, size, text[..n]))
    {
      KeepNext(bytes, str, size, text, n);
      if str != 0 && n < capacity {
        r := r[str + n := text[n] as int];
      }
      n := n + 1;
    }
    assert text[..n] == text;
    if size > 0 {
      if n < capacity {
        r := r[str + n := 0];
      } else {
        r := r[str + capacity := 0];
      }
    }
  }

  /** Memory holds a text and its terminator at p. */
  ghost predicate Stored(bytes: Bytes, p: int, text: string) {
    (forall k :: 0 <= k < |text| ==> CharAt(bytes, p, k) == text[k] as int) && CharAt(bytes, p, |text|) == 0
  }

  function CharAt(bytes: Bytes, p: int, k: int): int { Byte(bytes, p + k) }

  /** With somewhere to write, the result is the prefix that fits, terminated, and nothing
      outside the destination changes. */
  lemma WriteStores(bytes: Bytes, str: nat, size: nat, text: string)
    requires str != 0 && 0 < size < U32
    ensures var b := AfterWrite(bytes, str, size, text);
            && Stored(b, str, text[..Least(|text|, size - 1)])
            && forall a :: !(str <= a < str + size) ==> Byte(b, a) == Byte(bytes, a)
  {
    var kept := Kept(str, size, text);
    var b := AfterWrite(bytes, str, size, text);
    forall k | 0 <= k < |kept| ensures CharAt(b, str, k) == kept[k] as int {
      PutIs(bytes, str, kept, str + k);
    }
    forall a | !(str <= a < str + size) ensures Byte(b, a) == Byte(bytes, a) {
      PutIs(bytes, str, kept, a);
    }
  }

  /** Without a size the whole text is written, and no terminator; without a destination only
      the terminator is. */
  lemma WriteElse(bytes: Bytes, str: nat, size: nat, text: string, a: int)
    requires |text| < U32 - 1 && (str == 0 || size == 0)
    ensures Byte(AfterWrite(bytes, str, size, text), a) ==
            if str != 0 && str <= a < str + |text| then text[a - str] as int
            else if size > 0 && a == (if |text| < size - 1 then |text| else size - 1) then 0
            else Byte(bytes, a)
  {
    PutIs(bytes, str, Kept(str, size, text), a);
  }

  /** Exactly when every byte written lies in the destination: with a destination and a
      size, with neither, or with a size of zero and nothing to print. A destination of
      size zero gets the whole text, and no destination with a size gets a terminator. */
  lemma WritesInside(str: nat, size: nat, text: string)
    requires size < U32
    ensures (forall a :: Writes(str, size, text, a) ==> str != 0 && str <= a < str + size)
            <==> (if size > 0 then str != 0 else str == 0 || text == "")
  {
    if size > 0 {
      assert Writes(str, size, text, str + Least(|text|, Capacity(size)));
    } else if str != 0 && text != "" {
      assert Writes(str, size, text, str);
    }
  }

  /** Writes is what changes: a byte that is not written keeps its value, and one that is
      written has a value that does not depend on the old one. */
  lemma WritesIs(bytes: Bytes, other: Bytes, str: nat, size: nat, text: string, a: int)
    ensures !Writes(str, size, text, a) ==> Byte(AfterWrite(bytes, str, size, text), a) == Byte(bytes, a)
    ensures Writes(str, size, text, a) ==>
              Byte(AfterWrite(bytes, str, size, text), a) == Byte(AfterWrite(other, str, size, text), a)
  {
    PutIs(bytes, str, Kept(str, size, text), a);
    PutIs(other, str, Kept(str, size, text), a);
  }
}
