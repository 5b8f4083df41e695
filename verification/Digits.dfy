/** Numbers to text and back: the digit loops and a2u. */
module Digits {
  import opened Machine

  const BUFFER := 23

  type Base = b: nat | 8 <= b <= 16 witness 8

  // ---------- Numerals ----------

  /** The digits of n, most significant first. */
  function Numeral(n: nat, b: Base): (ds: seq<nat>)
    ensures |ds| > 0
  {
    if n < b then [n] else Numeral(n / b, b) + [n % b]
  }

  function Value(ds: seq<nat>, b: Base): nat {
    if ds == [] then 0 else Value(ds[..|ds| - 1], b) * b + ds[|ds| - 1]
  }

  lemma {:induction false} ValueAppend(ds: seq<nat>, d: nat, b: Base)
    ensures Value(ds + [d], b) == Value(ds, b) * b + d
  {}

  lemma DivMod(n: nat, b: nat)
    requires b > 0
    ensures n == n / b * b + n % b && n % b < b
  {}

  lemma Smaller(n: nat, b: nat)
    requires 1 < b <= n
    ensures 0 < n / b < n
  {
    var q := n / b;
    DivMod(n, b);
    assert q != 0 by {
      assert 0 * b == 0;
    }
    Apart(b, 1, q);
  }

  lemma {:induction false} NumeralDigits(n: nat, b: Base)
    ensures forall i :: 0 <= i < |Numeral(n, b)| ==> Numeral(n, b)[i] < b
    ensures Numeral(n, b)[0] == 0 <==> n == 0
  {
    if n >= b {
      Smaller(n, b);
      NumeralDigits(n / b, b);
    }
  }

  /** A numeral has the value it was made from. */
  lemma {:induction false} NumeralValue(n: nat, b: Base)
    ensures Value(Numeral(n, b), b) == n
  {
    if n < b {
      ValueAppend([], n, b);
    } else {
      Smaller(n, b);
      NumeralValue(n / b, b);
      ValueAppend(Numeral(n / b, b), n % b, b);
      DivMod(n, b);
    }
  }

  /** It is the only such sequence of digits. */
  lemma {:induction false} NumeralUnique(ds: seq<nat>, b: Base)
    requires ds != [] && (forall i :: 0 <= i < |ds| ==> ds[i] < b) && (ds[0] == 0 ==> |ds| == 1)
    ensures Numeral(Value(ds, b), b) == ds
  {
    var init, last := ds[..|ds| - 1], ds[|ds| - 1];
    if init == [] {
      assert Value(init, b) == 0;
      assert ds == [last];
    } else {
      NumeralUnique(init, b);
      ValuePositive(init, b);
      assert ds == init + [last];
      NumeralStep(Value(init, b), last, b);
    }
  }

  lemma NumeralStep(q: nat, d: nat, b: Base)
    requires q > 0 && d < b
    ensures Numeral(q * b + d, b) == Numeral(q, b) + [d]
  {
    DivUnique(q * b + d, b, q, d);
    Apart(q, 0, b);
  }

  lemma {:induction false} ValuePositive(ds: seq<nat>, b: Base)
    requires ds != [] && ds[0] != 0
    ensures Value(ds, b) > 0
  {
    if |ds| > 1 {
      ValuePositive(ds[..|ds| - 1], b);
    }
  }

  lemma DivUnique(n: nat, b: nat, q: nat, r: nat)
    requires b > 0 && n == q * b + r && r < b
    ensures n / b == q && n % b == r
  {
    DivMod(n, b);
    Apart(n / b, q, b);
    Apart(q, n / b, b);
  }

  lemma {:induction false} Apart(p: nat, q: nat, b: nat)
    ensures p > q ==> p * b >= q * b + b
  {
    if p > q + 1 {
      Apart(p - 1, q, b);
      assert p * b == (p - 1) * b + b;
    } else if p == q + 1 {
      assert p * b == q * b + b;
    }
  }

  function Pow(b: nat, k: nat): nat {
    if k == 0 then 1 else b * Pow(b, k - 1)
  }

  /** Numbers below 8 to the k have at most k digits in every base the formatter uses. */
  lemma {:induction false} NumeralShort(n: nat, b: Base, k: nat)
    requires k > 0 && n < Pow(8, k)
    ensures |Numeral(n, b)| <= k
  {
    if n >= b {
      DivMod(n, b);
      DivMod(n, 8);
      assert n / b * 8 <= n / b * b;
      assert k > 1;
      assert n / b < Pow(8, k - 1);
      NumeralShort(n / b, b, k - 1);
    }
  }

  // ---------- Characters ----------

  function DigitChar(d: nat, uc: bool): char
    requires d < 16
  {
    if d < 10 then (d + '0' as int) as char else (d - 10 + (if uc then 'A' else 'a') as int) as char
  }

  function Text(ds: seq<nat>, uc: bool): (t: string)
    requires forall i :: 0 <= i < |ds| ==> ds[i] < 16
    ensures |t| == |ds|
  {
    seq(|ds|, i requires 0 <= i < |ds| => DigitChar(ds[i], uc))
  }

  /** What the formatter prints for n. */
  function Printed(n: nat, b: Base, uc: bool): (t: string)
    ensures t != []
  {
    NumeralDigits(n, b);
    Text(Numeral(n, b), uc)
  }

  /** -1 for a character that is no digit. */
  function A2d(ch: char): int {
    if '0' <= ch <= '9' then ch as int - '0' as int
    else if 'a' <= ch <= 'f' then ch as int - 'a' as int + 10
    else if 'A' <= ch <= 'F' then ch as int - 'A' as int + 10
    else -1
  }

  /** Each character stands for its digit, in the letter case asked for, so that the text
      decodes to the number in every base. */
  lemma {:induction false} PrintedDecodes(n: nat, b: Base, uc: bool)
    ensures var t := Printed(n, b, uc);
            && (forall i :: 0 <= i < |t| ==> 0 <= A2d(t[i]) < b)
            && (forall i :: 0 <= i < |t| ==> '0' <= t[i] <= '9' || (if uc then 'A' <= t[i] <= 'F' else 'a' <= t[i] <= 'f'))
            && Value(seq(|t|, i requires 0 <= i < |t| => A2d(t[i])), b) == n
            && (t[0] == '0' <==> n == 0)
  {
    NumeralDigits(n, b);
    NumeralValue(n, b);
    var t := Printed(n, b, uc);
    assert seq(|t|, i requires 0 <= i < |t| => A2d(t[i])) == Numeral(n, b);
  }

  // ---------- ulli2a, uli2a, ui2a ----------

  function Quotient(n: nat, d: nat): nat
    requires d > 0
  {
    n / d
  }

  function Remainder(n: nat, d: nat): nat
    requires d > 0
  {
    n % d
  }

  ghost function Append(n: nat, d: nat, b: Base): nat { n * b + d }

  /** The first digits of num have been taken off, as the number shown; rest is the value
      of the other k digits, and d the power of the first of these. */
  ghost predicate Taken(num: nat, b: Base, k: nat, d: nat, rest: nat, shown: nat) {
    rest < Pow(b, k) && num == shown * Pow(b, k) + rest && d == if k == 0 then 0 else Pow(b, k - 1)
  }

  lemma TakeDigit(num: nat, b: Base, k: nat, d: nat, rest: nat, shown: nat)
    requires d > 0 && Taken(num, b, k, d, rest, shown)
    ensures k > 0 && Quotient(rest, d) < b && Append(shown, Quotient(rest, d), b) <= num
    ensures Taken(num, b, k - 1, Quotient(d, b), Remainder(rest, d), Append(shown, Quotient(rest, d), b))
  {
    hide Taken;
    TakenIs(num, b, k, d, rest, shown);
    DivMod(rest, d);
    Regroup(num, shown, rest, Quotient(rest, d), Remainder(rest, d), d, b);
    LowerPower(b, k - 1);
    IsTaken(num, b, k - 1, Quotient(d, b), Remainder(rest, d), Append(shown, Quotient(rest, d), b));
  }

  lemma {:induction false} TakenIs(num: nat, b: Base, k: nat, d: nat, rest: nat, shown: nat)
    requires d > 0 && Taken(num, b, k, d, rest, shown)
    ensures k > 0 && d == Pow(b, k - 1) && rest < b * d && num == shown * (b * d) + rest
  {}

  lemma IsTaken(num: nat, b: Base, k: nat, d: nat, rest: nat, shown: nat)
    requires rest < Pow(b, k) && num == shown * Pow(b, k) + rest && d == if k == 0 then 0 else Pow(b, k - 1)
    ensures Taken(num, b, k, d, rest, shown)
  {}

  lemma Regroup(num: nat, shown: nat, rest: nat, s: nat, t: nat, d: nat, b: Base)
    requires d > 0 && rest < b * d && num == shown * (b * d) + rest && rest == s * d + t
    ensures s < b && num == Append(shown, s, b) * d + t && Append(shown, s, b) <= num
  {
    Apart(s + 1, b, d);
    assert shown * (b * d) == shown * b * d;
    AtMost(Append(shown, s, b), d);
  }

  lemma LowerPower(b: Base, k: nat)
    ensures Pow(b, k) > 0
    ensures Quotient(Pow(b, k), b) == if k == 0 then 0 else Pow(b, k - 1)
  {
    PowPositive(b, k);
    if k > 0 {
      DivUnique(Pow(b, k), b, Pow(b, k - 1), 0);
    }
  }

  lemma {:induction false} PowPositive(b: Base, k: nat)
    ensures Pow(b, k) > 0
  {
    if k > 0 {
      PowPositive(b, k - 1);
    }
  }

  lemma AtMost(n: nat, d: nat)
    requires d > 0
    ensures n <= n * d
  {}

  lemma NextPrinted(q: nat, s: nat, b: Base, uc: bool)
    requires s < b
    ensures q > 0 ==> Append(q, s, b) > 0 && Printed(Append(q, s, b), b, uc) == Printed(q, b, uc) + [DigitChar(s, uc)]
    ensures q == 0 ==> Append(q, s, b) == s && Printed(s, b, uc) == [DigitChar(s, uc)]
  {
    if q > 0 {
      NumeralStep(q, s, b);
      Apart(q, 0, b);
    }
  }

  lemma PrintedFits(n: nat, b: Base, uc: bool)
    requires n < U64
    ensures |Printed(n, b, uc)| < BUFFER
  {
    assert Pow(8, 11) == 0x2_0000_0000;
    assert Pow(8, 22) == Pow(8, 11) * 0x2_0000_0000;
    NumeralShort(n, b, 22);
  }

  lemma Fits(n: nat, d: nat, b: nat)
    requires d > 0 && b > 1
    ensures d < d * b && (n / d >= b <==> d * b <= n)
  {
    DivMod(n, d);
    Apart(b, n / d, d);
    assert n / d >= b ==> n / d * d >= b * d;
  }

  /** The largest power of the base up to num, without overflowing. */
  method LargestPower(num: nat, b: Base, limit: nat) returns (d: nat, ghost k: nat)
    requires num < limit && 1 < limit
    ensures 0 < d < limit && Taken(num, b, k, d, num, 0)
  {
    d, k := 1, 1;
    while num / d >= b
      invariant 0 < d < limit && k > 0 && d == Pow(b, k - 1)
      decreases num - d
    {
      Fits(num, d, b);
      d, k := d * b, k + 1;
    }
    Fits(num, d, b);
  }

  /** The three digit loops, which differ only in the width of their integers: for every
      number of that width the divisor never overflows, the text and its terminator fit
      the buffer, and the text is the numeral. */
  method ToText(num: nat, b: Base, uc: bool, limit: nat, bf: array<char>) returns (len: nat)
    requires num < limit && (limit == U32 || limit == U64) && bf.Length == BUFFER
    modifies bf
    ensures len < BUFFER && bf[..len] == Printed(num, b, uc) && bf[len] == '\0'
  {
    hide Taken, Printed, Pow, Quotient, Remainder, Append;
    var d, k := LargestPower(num, b, limit);
    var rest := num;
    ghost var shown: nat := 0;
    len := 0;
    while d != 0
      invariant Taken(num, b, k, d, rest, shown) && len < BUFFER
      invariant bf[..len] == if shown > 0 || d == 0 then Printed(shown, b, uc) else []
      decreases k
    {
      TakeDigit(num, b, k, d, rest, shown);
      var dgt := Quotient(rest, d);
      NextPrinted(shown, dgt, b, uc);
      PrintedFits(Append(shown, dgt, b), b, uc);
      rest := Remainder(rest, d);
      d := Quotient(d, b);
      shown, k := Append(shown, dgt, b), k - 1;
      if len > 0 || dgt > 0 || d == 0 {
        ghost var was := bf[..len];
        bf[len] := DigitChar(dgt, uc);
        len := len + 1;
        assert bf[..len] == was + [DigitChar(dgt, uc)];
      }
    }
    AllTaken(num, b, k, rest, shown);
    bf[len] := '\0';
  }

  lemma AllTaken(num: nat, b: Base, k: nat, rest: nat, shown: nat)
    requires Taken(num, b, k, 0, rest, shown)
    ensures shown == num
  {}

  // ---------- a2u ----------

  /** The characters a2u takes: digits up to and including the base itself. */
  predicate Taking(ch: char, base: nat) { 0 <= A2d(ch) <= base }

  function Span(s: string, base: nat): (k: nat)
    ensures k <= |s| && (k < |s| ==> !Taking(s[k], base))
    ensures forall i :: 0 <= i < k ==> Taking(s[i], base)
  {
    if s == [] || !Taking(s[0], base) then 0 else 1 + Span(s[1..], base)
  }

  /** Their value, in 32-bit arithmetic. */
  function Parsed(s: string, base: nat): (n: nat)
    requires forall i :: 0 <= i < |s| ==> Taking(s[i], base)
    ensures n < U32
  {
    if s == [] then 0 else (Parsed(s[..|s| - 1], base) * base + A2d(s[|s| - 1])) % U32
  }

  /** a2u: ch is the character at start, and src points after it. */
  method A2u(s: string, start: nat, base: nat) returns (ch: char, src: nat, num: nat)
    requires start < |s| && '\0' !in s
    ensures var k := Span(s[start..], base);
            && src == start + k + 1 && ch == (s + "\0")[src - 1]
            && num == Parsed(s[start..][..k], base)
  {
    var t := s + "\0";
    src, ch, num := start + 1, s[start], 0;
    ghost var tail := s[start..];
    while Taking(ch, base)
      invariant start < src <= |s| + 1 && ch == t[src - 1] && start + Span(tail, base) + 1 >= src
      invariant num == Parsed(tail[..src - 1 - start], base)
      decreases |s| - src
    {
      assert ch == tail[src - 1 - start];
      ghost var seen := tail[..src - start];
      assert seen[..|seen| - 1] == tail[..src - 1 - start];
      num := (num * base + A2d(ch)) % U32;
      ch := t[src];
      src := src + 1;
    }
  }

  /** Printed in decimal and followed by anything a2u does not take, a 32-bit number reads
      back as itself. */
  lemma ReadsBack(n: nat, rest: string, uc: bool)
    requires n < U32 && (rest == [] || !('0' <= rest[0] <= '9' || rest[0] == 'a' || rest[0] == 'A'))
    ensures var s := Printed(n, 10, uc) + rest;
            && Span(s, 10) == |Printed(n, 10, uc)| && Parsed(s[..Span(s, 10)], 10) == n
  {
    var t := Printed(n, 10, uc);
    NumeralDigits(n, 10);
    NumeralValue(n, 10);
    TextTaken(Numeral(n, 10), rest, uc);
    TextParsed(Numeral(n, 10), uc);
    assert (t + rest)[..|t|] == t;
  }

  lemma {:induction false} TextTaken(ds: seq<nat>, rest: string, uc: bool)
    requires (forall i :: 0 <= i < |ds| ==> ds[i] < 10) && (rest == [] || !Taking(rest[0], 10))
    ensures Span(Text(ds, uc) + rest, 10) == |ds|
  {
    if ds == [] {
      assert Text(ds, uc) + rest == rest;
    } else {
      TextTaken(ds[1..], rest, uc);
      assert (Text(ds, uc) + rest)[1..] == Text(ds[1..], uc) + rest;
    }
  }

  lemma {:induction false} TextParsed(ds: seq<nat>, uc: bool)
    requires (forall i :: 0 <= i < |ds| ==> ds[i] < 10) && Value(ds, 10) < U32
    ensures Parsed(Text(ds, uc), 10) == Value(ds, 10)
  {
    if ds != [] {
      var t := Text(ds, uc);
      assert t[..|t| - 1] == Text(ds[..|ds| - 1], uc);
      TextParsed(ds[..|ds| - 1], uc);
    }
  }

  /** The condition is exact: a digit, or a hexadecimal ten, right after the number is read
      as part of it. */
  lemma {:induction false} ReadsOn(n: nat, rest: string, uc: bool)
    requires n < U32 && rest != [] && ('0' <= rest[0] <= '9' || rest[0] == 'a' || rest[0] == 'A')
    ensures Span(Printed(n, 10, uc) + rest, 10) > |Printed(n, 10, uc)|
  {
    var t := Printed(n, 10, uc);
    NumeralDigits(n, 10);
    forall i | 0 <= i <= |t| ensures Taking((t + rest)[i], 10) {
      if i < |t| {
        assert (t + rest)[i] == DigitChar(Numeral(n, 10)[i], uc);
      }
    }
    SpanAbove(t + rest, 10, |t|);
  }

  lemma {:induction false} SpanAbove(s: string, base: nat, m: nat)
    requires m < |s| && forall i :: 0 <= i <= m ==> Taking(s[i], base)
    ensures Span(s, base) > m
  {}

  // ---------- putchw ----------

  /** The parameters of one field. base matters only for the alternate form. */
  datatype Field = Field(lz: bool, alt: bool, uc: bool, left: bool, width: nat, sign: string, base: nat)

  predicate FieldOk(f: Field) { f.width < U32 && |f.sign| <= 1 }

  function Prefix(f: Field): string {
    if f.alt && f.base == 16 then (if f.uc then "0X" else "0x")
    else if f.alt && f.base == 8 then "0"
    else ""
  }

  function Repeat(c: char, n: nat): (s: string)
    ensures |s| == n && forall i :: 0 <= i < n ==> s[i] == c
  {
    seq(n, _ => c)
  }

  function Fill(f: Field, body: string): nat {
    var n := Signed32(f.width) - |f.sign| - |Prefix(f)| - |body|;
    if n > 0 then n else 0
  }

  /** Zeros go between the prefix and the body, spaces before everything or after it. */
  function Laid(f: Field, body: string): string {
    var n := Fill(f, body);
    if f.lz then f.sign + Prefix(f) + Repeat('0', n) + body
    else if f.left then f.sign + Prefix(f) + body + Repeat(' ', n)
    else Repeat(' ', n) + f.sign + Prefix(f) + body
  }

  /** The output is as wide as asked, or as its parts if they are wider, exactly when the
      width fits a signed integer or the parts reach it anyway. */
  lemma WidthExact(f: Field, body: string)
    requires FieldOk(f)
    ensures var parts := |f.sign| + |Prefix(f)| + |body|;
            |Laid(f, body)| == (if f.width > parts then f.width else parts)
            <==> f.width < U32 / 2 || f.width <= parts
  {}

  /** Emits n fillers, as the loops that count n down to zero do. */
  method Emit(out: string, c: char, n: int) returns (out': string)
    ensures out' == out + Repeat(c, if n > 0 then n else 0)
  {
    out' := out;
    var i := n;
    while i > 0
      invariant i <= n || n <= 0
      invariant n > 0 ==> i >= 0 && out' == out + Repeat(c, n - i)
      invariant n <= 0 ==> i == n && out' == out
    {
      out' := out' + [c];
      i := i - 1;
    }
  }

  /** Emits a terminated string. */
  method EmitAll(out: string, s: string) returns (out': string)
    requires '\0' !in s
    ensures out' == out + s
  {
    out' := out;
    var i := 0;
    while i < |s|
      invariant i <= |s| && out' == out + s[..i]
    {
      out' := out' + [s[i]];
      i := i + 1;
    }
  }

  /** The filling characters left over, as the code counts them. */
  method CountFill(f: Field, body: string) returns (n: int)
    requires FieldOk(f) && '\0' !in body
    ensures (if n > 0 then n else 0) == Fill(f, body)
  {
    n := Signed32(f.width);
    var i := 0;
    while i < |body| && n > 0
      invariant i <= |body|
      invariant if Signed32(f.width) > 0 then n == Signed32(f.width) - i >= 0 else n == Signed32(f.width) && i == 0
    {
      n, i := n - 1, i + 1;
    }
    n := n - |f.sign| - |Prefix(f)|;
  }

  /** putchw on a terminated string, giving the characters it passes on after out. */
  method Putchw(out: string, f: Field, body: string) returns (out': string)
    requires FieldOk(f) && '\0' !in body
    ensures out' == out + Laid(f, body)
  {
    hide Prefix, Repeat, Fill, Signed32;
    var n := CountFill(f, body);
    out' := out;
    if !f.lz && !f.left {
      out' := Emit(out', ' ', n);
    }
    out' := out' + f.sign + Prefix(f);
    if f.lz {
      out' := Emit(out', '0', n);
    }
    out' := EmitAll(out', body);
    if !f.lz && f.left {
      out' := Emit(out', ' ', n);
    }
    LaidOnto(out, f, body);
  }

  lemma LaidOnto(out: string, f: Field, body: string)
    ensures var n := Fill(f, body);
            out + Laid(f, body) ==
            if f.lz then out + f.sign + Prefix(f) + Repeat('0', n) + body
            else if f.left then out + f.sign + Prefix(f) + body + Repeat(' ', n)
            else out + Repeat(' ', n) + f.sign + Prefix(f) + body
  {}
}
