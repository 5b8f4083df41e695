/** tfp_format: the text a format and its arguments stand for, and the loop that emits it. */
module Printf {
  import opened Machine
  import opened Digits

  /** A terminated string, without its terminator. */
  type CStr = s: string | '\0' !in s witness ""

  type U32Word = n: nat | n < U32 witness 0
  type U64Word = n: nat | n < U64 witness 0

  /** What va_arg can fetch: int, long and pointers are one word, long long is two. */
  datatype Arg = Word(w: U32Word) | Wide(x: U64Word) | Str(s: CStr)

  // ---------- Directives ----------

  /** What follows a percent sign. conv is the terminator if the format ends too soon. */
  datatype Directive = Directive(f: Field, lng: nat, conv: char, rest: CStr)

  function Head(s: CStr): char { if s == [] then '\0' else s[0] }

  predicate IsFlag(c: char) { c == '-' || c == '0' || c == '#' }

  predicate IsDigit(c: char) { '0' <= c <= '9' }

  function SetFlag(f: Field, c: char): Field {
    if c == '-' then f.(left := true) else if c == '0' then f.(lz := true) else f.(alt := true)
  }

  function Flags(s: CStr, f: Field): (r: (Field, CStr))
    ensures |r.1| <= |s|
    ensures FieldOk(f) ==> FieldOk(r.0)
    ensures r.0.base == f.base && r.0.uc == f.uc && r.0.sign == f.sign
  {
    if s != [] && IsFlag(s[0]) then Flags(s[1..], SetFlag(f, s[0])) else (f, s)
  }

  function Width(s: CStr, f: Field): (Field, CStr) {
    if IsDigit(Head(s)) then
      var k := Span(s, 10);
      (f.(width := Parsed(s[..k], 10)), s[k..])
    else (f, s)
  }

  function SkipDigits(s: CStr): (r: CStr)
    ensures |r| <= |s|
  {
    if s != [] && IsDigit(s[0]) then SkipDigits(s[1..]) else s
  }

  function Precision(s: CStr, f: Field): (Field, CStr) {
    if Head(s) == '.' then (f.(lz := true), SkipDigits(s[1..])) else (f, s)
  }

  /** 1 for long, which is one word, 2 for long long, which is two. */
  function Length(s: CStr): (nat, CStr) {
    if Head(s) == 'z' then (1, s[1..])
    else if Head(s) == 'l' then
      if Head(s[1..]) == 'l' then (2, s[2..]) else (1, s[1..])
    else (0, s)
  }

  /** p is the parameter structure as the last directive left it: base and case persist. */
  function Cleared(p: Field): Field {
    p.(lz := false, alt := false, width := 0, left := false, sign := "")
  }

  function Scan(s: CStr, p: Field): (d: Directive)
    ensures |d.rest| <= |s|
    ensures FieldOk(d.f) && d.f.sign == "" && d.f.base == p.base && d.f.uc == p.uc
  {
    var (f1, s1) := Flags(s, Cleared(p));
    var (f2, s2) := Width(s1, f1);
    var (f3, s3) := Precision(s2, f2);
    var (lng, s4) := Length(s3);
    Directive(f3, lng, Head(s4), if s4 == [] then [] else s4[1..])
  }

  // ---------- Conversions ----------

  datatype Emission = Mismatch | Emitted(text: string, args: seq<Arg>, p: Field)

  predicate Numeric(conv: char) { conv in "udipxXo" }

  function BaseOf(conv: char): Base {
    if conv == 'o' then 8 else if conv == 'x' || conv == 'X' || conv == 'p' then 16 else 10
  }

  /** The field of a numeric conversion: a pointer is in the alternate form. */
  function NumberField(d: Directive): Field {
    d.f.(base := BaseOf(d.conv),
         uc := if BaseOf(d.conv) == 16 then d.conv == 'X' else d.f.uc,
         alt := d.f.alt || d.conv == 'p')
  }

  /** Whether it fetches two words: octal and pointers never do. */
  predicate FetchesWide(d: Directive) { d.lng == 2 && d.conv != 'o' && d.conv != 'p' }

  function Fetch(d: Directive, a: Arg): Option<nat> {
    if FetchesWide(d) then (if a.Wide? then Some(a.x) else None)
    else if a.Word? then Some(a.w) else None
  }

  function Limit(d: Directive): nat { if FetchesWide(d) then U64 else U32 }

  predicate Negative(d: Directive, n: nat) { (d.conv == 'd' || d.conv == 'i') && n >= Limit(d) / 2 }

  /** The magnitude of the two's complement number n, or n itself if unsigned. */
  function Magnitude(d: Directive, n: nat): nat {
    if Negative(d, n) && n < Limit(d) then Limit(d) - n else n
  }

  function NumberText(d: Directive, n: nat): string {
    var f := NumberField(d).(sign := if Negative(d, n) then "-" else "");
    Laid(f, Printed(Magnitude(d, n), f.base, f.uc))
  }

  function Convert(d: Directive, args: seq<Arg>): Emission {
    if Numeric(d.conv) then
      if args == [] || Fetch(d, args[0]).None? then Mismatch
      else Emitted(NumberText(d, Fetch(d, args[0]).value), args[1..], NumberField(d))
    else if d.conv == 'c' then
      if args == [] || !args[0].Word? then Mismatch
      else Emitted([(args[0].w % 256) as char], args[1..], d.f)
    else if d.conv == 's' then
      if args == [] || !args[0].Str? then Mismatch
      else Emitted(Laid(d.f, args[0].s), args[1..], d.f)
    else if d.conv == '%' then Emitted("%", args, d.f)
    else Emitted("", args, d.f)
  }

  /** The text of a format, if the arguments are those it asks for. */
  function Formatted(s: CStr, args: seq<Arg>, p: Field): Option<string>
    decreases |s|
  {
    if s == [] then Some("")
    else if s[0] != '%' then
      var r := Formatted(s[1..], args, p);
      if r.Some? then Some([s[0]] + r.value) else None
    else
      var d := Scan(s[1..], p);
      if d.conv == '\0' then Some("")
      else
        match Convert(d, args)
        case Mismatch => None
        case Emitted(text, args', p') =>
          var r := Formatted(d.rest, args', p');
          if r.Some? then Some(text + r.value) else None
  }

  // ---------- What formats mean ----------

  /** Text before a directive comes out as it stands. */
  lemma {:induction false} PlainText(t: CStr, s: CStr, args: seq<Arg>, p: Field)
    requires '%' !in t && '\0' !in t + s
    ensures Formatted(t + s, args, p) ==
            var r := Formatted(s, args, p); if r.Some? then Some(t + r.value) else None
  {
    hide Scan, Convert;
    if t == [] {
      assert t + s == s;
      assert Formatted(s, args, p).Some? ==> t + Formatted(s, args, p).value == Formatted(s, args, p).value;
    } else {
      assert t[0] in t && (t + s)[1..] == t[1..] + s;
      PlainText(t[1..], s, args, p);
      var r := Formatted(s, args, p);
      assert r.Some? ==> [t[0]] + (t[1..] + r.value) == t + r.value;
    }
  }

  /** %d and %i show the two's complement value of the word. */
  lemma SignedMeaning(d: Directive, a: Arg)
    requires (d.conv == 'd' || d.conv == 'i') && Fetch(d, a).Some?
    ensures var n := Fetch(d, a).value;
            var v := if n < Limit(d) / 2 then n else n - Limit(d);
            -(Limit(d) / 2) <= v < Limit(d) / 2 && (Negative(d, n) <==> v < 0) && Magnitude(d, n) == if v < 0 then -v else v
  {}

  /** A directive as a programmer writes it, with the rest of the format after it. */
  function Written(flags: string, width: nat, precision: Option<string>, length: string, conv: char, rest: string): string {
    flags + WithWidth(width, WithPrecision(precision, length + [conv] + rest))
  }

  function WithPrecision(precision: Option<string>, s: string): string {
    (if precision.Some? then "." + precision.value else "") + s
  }

  function WithWidth(width: nat, s: string): string {
    (if width > 0 then Printed(width, 10, false) else "") + s
  }

  predicate IsConversion(c: char) {
    c != '\0' && !IsFlag(c) && !Taking(c, 10) && c != '.' && c != 'z' && c != 'l'
  }

  function LengthOf(length: string): nat { if length == "ll" then 2 else if length == "" then 0 else 1 }

  /** Scanning reads back exactly what was written, whatever comes after. */
  lemma ScanReadsBack(flags: string, width: nat, precision: Option<string>, length: string, conv: char, rest: CStr, p: Field)
    requires (forall i :: 0 <= i < |flags| ==> IsFlag(flags[i])) && width < U32
    requires precision.Some? ==> forall i :: 0 <= i < |precision.value| ==> IsDigit(precision.value[i])
    requires length in ["", "z", "l", "ll"] && IsConversion(conv)
    ensures '\0' !in Written(flags, width, precision, length, conv, rest)
    ensures Scan(Written(flags, width, precision, length, conv, rest), p) ==
            Directive(Field('0' in flags || precision.Some?, '#' in flags, p.uc, '-' in flags, width, "", p.base),
                      LengthOf(length), conv, rest)
  {
    hide Flags, Width, Precision, Length, LengthOf, WithWidth, WithPrecision, IsConversion, IsFlag, IsDigit, Taking;
    var f1 := Cleared(p).(lz := '0' in flags, alt := '#' in flags, left := '-' in flags);
    var s4 := length + [conv] + rest;
    LengthBack(length, conv, rest);
    PrecisionBack(precision, s4, f1.(width := width));
    var s3 := WithPrecision(precision, s4);
    WidthBack(width, s3, f1);
    FlagsBack(flags, WithWidth(width, s3), Cleared(p));
  }

  predicate Stops(s: string) { s != [] && '\0' !in s }

  lemma LengthBack(length: string, conv: char, rest: CStr)
    requires length in ["", "z", "l", "ll"] && IsConversion(conv)
    ensures var s := length + [conv] + rest;
            && Stops(s) && !IsFlag(s[0]) && !Taking(s[0], 10) && s[0] != '.'
            && Length(s).0 == LengthOf(length) && Length(s).1 == [conv] + rest
  {}

  lemma {:induction false} SkipBack(ds: string, s: CStr)
    requires (forall i :: 0 <= i < |ds| ==> IsDigit(ds[i])) && s != [] && !IsDigit(s[0])
    ensures '\0' !in ds + s && SkipDigits(ds + s) == s
  {
    if ds == [] {
      assert ds + s == s;
    } else {
      assert (ds + s)[1..] == ds[1..] + s;
      SkipBack(ds[1..], s);
    }
  }

  lemma PrecisionBack(precision: Option<string>, s: CStr, f: Field)
    requires precision.Some? ==> forall i :: 0 <= i < |precision.value| ==> IsDigit(precision.value[i])
    requires Stops(s) && !IsFlag(s[0]) && !Taking(s[0], 10) && s[0] != '.'
    ensures var t := WithPrecision(precision, s);
            && Stops(t) && !IsFlag(t[0]) && !Taking(t[0], 10)
            && Precision(t, f) == (f.(lz := f.lz || precision.Some?), s)
  {
    var t := WithPrecision(precision, s);
    if precision.Some? {
      SkipBack(precision.value, s);
      assert t[1..] == precision.value + s;
    } else {
      assert t == s;
    }
  }

  lemma WidthBack(width: nat, s: CStr, f: Field)
    requires width < U32 && Stops(s) && !IsFlag(s[0]) && !Taking(s[0], 10) && f.width == 0
    ensures var t := WithWidth(width, s);
            Stops(t) && !IsFlag(t[0]) && Width(t, f) == (f.(width := width), s)
  {
    hide Printed, Parsed, Span;
    if width == 0 {
      assert WithWidth(width, s) == s;
    } else {
      var w := Printed(width, 10, false);
      PrintedTerminated(width, 10, false);
      PrintedDecodes(width, 10, false);
      ReadsBack(width, s, false);
      assert (w + s)[0] == w[0] && (w + s)[|w|..] == s;
    }
  }

  lemma {:induction false} FlagsBack(flags: string, s: CStr, f: Field)
    requires (forall i :: 0 <= i < |flags| ==> IsFlag(flags[i])) && s != [] && !IsFlag(s[0])
    ensures '\0' !in flags + s
    ensures Flags(flags + s, f) ==
            (f.(lz := f.lz || '0' in flags, alt := f.alt || '#' in flags, left := f.left || '-' in flags), s)
  {
    if flags == [] {
      assert flags + s == s;
    } else {
      assert (flags + s)[1..] == flags[1..] + s;
      FlagsBack(flags[1..], s, SetFlag(f, flags[0]));
    }
  }

  // ---------- The loops ----------

  method ScanFlags(s: CStr, f: Field) returns (f': Field, s': CStr)
    ensures (f', s') == Flags(s, f)
  {
    f', s' := f, s;
    while s' != [] && IsFlag(s'[0])
      invariant Flags(s', f') == Flags(s, f)
      decreases |s'|
    {
      f', s' := SetFlag(f', s'[0]), s'[1..];
    }
  }

  method ScanWidth(s: CStr, f: Field) returns (f': Field, s': CStr)
    ensures (f', s') == Width(s, f)
  {
    f', s' := f, s;
    if IsDigit(Head(s)) {
      var _, src, width := A2u(s, 0, 10);
      assert s[0..] == s;
      f', s' := f.(width := width), s[src - 1..];
    }
  }

  method ScanPrecision(s: CStr, f: Field) returns (f': Field, s': CStr)
    ensures (f', s') == Precision(s, f)
  {
    f', s' := f, s;
    if Head(s) == '.' {
      f', s' := f.(lz := true), s[1..];
      while s' != [] && IsDigit(s'[0])
        invariant SkipDigits(s') == SkipDigits(s[1..])
        decreases |s'|
      {
        s' := s'[1..];
      }
    }
  }

  method ScanDirective(s: CStr, p: Field) returns (d: Directive)
    ensures d == Scan(s, p)
  {
    hide Flags, Width, Precision, SkipDigits;
    var f1, s1 := ScanFlags(s, Cleared(p));
    var f2, s2 := ScanWidth(s1, f1);
    var f3, s3 := ScanPrecision(s2, f2);
    var (lng, s4) := Length(s3);
    d := Directive(f3, lng, Head(s4), if s4 == [] then [] else s4[1..]);
  }

  lemma {:induction false} PrintedTerminated(n: nat, b: Base, uc: bool)
    ensures '\0' !in Printed(n, b, uc)
  {
    NumeralDigits(n, b);
  }

  lemma MagnitudeFits(d: Directive, a: Arg)
    requires Numeric(d.conv) && Fetch(d, a).Some?
    ensures Magnitude(d, Fetch(d, a).value) < Limit(d)
    ensures FieldOk(d.f) ==> FieldOk(NumberField(d).(sign := "-")) && FieldOk(NumberField(d).(sign := ""))
  {}

  /** A numeric conversion through the 23-byte buffer. */
  method FormatNumber(out: string, d: Directive, a: Arg) returns (out': string)
    requires Numeric(d.conv) && Fetch(d, a).Some? && FieldOk(d.f)
    ensures out' == out + NumberText(d, Fetch(d, a).value)
  {
    hide Printed, Laid, Prefix;
    var n := Fetch(d, a).value;
    MagnitudeFits(d, a);
    var f := NumberField(d).(sign := if Negative(d, n) then "-" else "");
    var bf := new char[BUFFER];
    var len := ToText(Magnitude(d, n), f.base, f.uc, Limit(d), bf);
    PrintedTerminated(Magnitude(d, n), f.base, f.uc);
    out' := Putchw(out, f, bf[..len]);
  }

  method FormatDirective(out: string, d: Directive, args: seq<Arg>) returns (out': string, args': seq<Arg>, p': Field)
    requires Convert(d, args).Emitted? && FieldOk(d.f)
    ensures out' == out + Convert(d, args).text && args' == Convert(d, args).args && p' == Convert(d, args).p
  {
    hide NumberText, Laid, Negative, Magnitude;
    out', args', p' := out, args, d.f;
    if Numeric(d.conv) {
      out' := FormatNumber(out, d, args[0]);
      args', p' := args[1..], NumberField(d);
    } else if d.conv == 'c' {
      out', args' := out + [(args[0].w % 256) as char], args[1..];
    } else if d.conv == 's' {
      out' := Putchw(out, d.f, args[0].s);
      args' := args[1..];
    } else if d.conv == '%' {
      out' := out + "%";
    }
  }

  /** tfp_format emits exactly the text of the format, whatever the sink. */
  method TfpFormat(fmt: CStr, args: seq<Arg>, p: Field) returns (out: string)
    requires Formatted(fmt, args, p).Some?
    ensures out == Formatted(fmt, args, p).value
  {
    hide Scan, Convert;
    out := "";
    var s, left, q := fmt, args, p;
    while s != []
      invariant Formatted(s, left, q).Some? && out + Formatted(s, left, q).value == Formatted(fmt, args, p).value
      decreases |s|
    {
      if s[0] != '%' {
        out, s := out + [s[0]], s[1..];
      } else {
        var d := ScanDirective(s[1..], q);
        if d.conv == '\0' {
          return;
        }
        out, left, q := FormatDirective(out, d, left);
        s := d.rest;
      }
    }
  }

  // ---------- Uninitialised parameters ----------

  /** No string conversion in the alternate form comes before the first numeric one, so
      that base and case are never used before they are set. */
  predicate Guarded(s: CStr)
    decreases |s|
  {
    if s == [] then true
    else if s[0] != '%' then Guarded(s[1..])
    else
      var d := Scan(s[1..], Blank(10));
      d.conv == '\0' || Numeric(d.conv) || (!(d.conv == 's' && d.f.alt) && Guarded(d.rest))
  }

  function Blank(base: nat): Field { Field(false, false, false, false, 0, "", base) }

  lemma {:induction false} FlagsAny(s: CStr, f: Field, base: nat, uc: bool)
    ensures Flags(s, f.(base := base, uc := uc)) == (Flags(s, f).0.(base := base, uc := uc), Flags(s, f).1)
  {
    if s != [] && IsFlag(s[0]) {
      FlagsAny(s[1..], SetFlag(f, s[0]), base, uc);
    }
  }

  lemma WidthAny(s: CStr, f: Field, base: nat, uc: bool)
    ensures Width(s, f.(base := base, uc := uc)) == (Width(s, f).0.(base := base, uc := uc), Width(s, f).1)
  {}

  lemma PrecisionAny(s: CStr, f: Field, base: nat, uc: bool)
    ensures Precision(s, f.(base := base, uc := uc)) == (Precision(s, f).0.(base := base, uc := uc), Precision(s, f).1)
  {}

  /** Scanning does not look at what the last directive left. */
  lemma ScanAny(s: CStr, p: Field, q: Field)
    ensures Scan(s, q) == Scan(s, p).(f := Scan(s, p).f.(base := q.base, uc := q.uc))
  {
    hide Flags, Width, Precision, Length;
    var (f1, s1) := Flags(s, Cleared(p));
    var (f2, s2) := Width(s1, f1);
    assert Cleared(q) == Cleared(p).(base := q.base, uc := q.uc);
    FlagsAny(s, Cleared(p), q.base, q.uc);
    WidthAny(s1, f1, q.base, q.uc);
    PrecisionAny(s2, f2, q.base, q.uc);
  }

  /** Structures that print strings alike: the case matters in base 16 only. */
  predicate Alike(p: Field, q: Field) { p.base == q.base && (p.base == 16 ==> p.uc == q.uc) }

  lemma {:induction false} CaseOfDigits(n: nat, b: Base)
    requires b <= 10
    ensures Printed(n, b, true) == Printed(n, b, false)
  {
    NumeralDigits(n, b);
  }

  lemma LaidAny(f: Field, base: nat, uc: bool, body: string)
    requires !f.alt || Alike(f, f.(base := base, uc := uc))
    ensures Laid(f.(base := base, uc := uc), body) == Laid(f, body)
  {}

  lemma NumberAny(d: Directive, base: nat, uc: bool, n: nat)
    requires Numeric(d.conv)
    ensures var d' := d.(f := d.f.(base := base, uc := uc));
            NumberText(d', n) == NumberText(d, n) && Alike(NumberField(d'), NumberField(d))
  {
    hide Laid, Printed, Numeric, Prefix;
    var d' := d.(f := d.f.(base := base, uc := uc));
    var f := NumberField(d).(sign := if Negative(d, n) then "-" else "");
    var f' := f.(uc := NumberField(d').uc);
    var m := Magnitude(d, n);
    if f.base != 16 {
      CaseOfDigits(m, f.base);
    }
    LaidAny(f, f.base, f'.uc, Printed(m, f.base, f.uc));
    assert Printed(m, f.base, f'.uc) == Printed(m, f.base, f.uc);
    assert NumberText(d', n) == Laid(f', Printed(m, f.base, f'.uc));
  }

  /** One conversion from two structures. */
  lemma ConvertAny(d: Directive, base: nat, uc: bool, args: seq<Arg>)
    ensures var d' := d.(f := d.f.(base := base, uc := uc));
            var e, e' := Convert(d, args), Convert(d', args);
            && (e.Emitted? <==> e'.Emitted?)
            && (e.Emitted? ==>
                  && e'.args == e.args
                  && (Numeric(d.conv) ==> Alike(e.p, e'.p))
                  && (!Numeric(d.conv) ==> e.p == d.f && e'.p == d'.f)
                  && (d.conv != 's' || !d.f.alt || Alike(d.f, d'.f) ==> e'.text == e.text))
  {
    hide Laid, NumberText, NumberField;
    if Numeric(d.conv) && args != [] && Fetch(d, args[0]).Some? {
      NumberAny(d, base, uc, Fetch(d, args[0]).value);
    } else if d.conv == 's' && args != [] && args[0].Str? && (!d.f.alt || Alike(d.f, d.f.(base := base, uc := uc))) {
      LaidAny(d.f, base, uc, args[0].s);
    }
  }

  /** A guarded format means the same whatever the structure held. */
  lemma {:induction false} GuardedIsSafe(s: CStr, args: seq<Arg>, p: Field, q: Field)
    requires Guarded(s) || Alike(p, q)
    ensures Formatted(s, args, p) == Formatted(s, args, q)
    decreases |s|
  {
    hide Scan, Convert;
    if s != [] {
      if s[0] != '%' {
        GuardedIsSafe(s[1..], args, p, q);
      } else {
        var d := Scan(s[1..], p);
        ScanAny(s[1..], p, q);
        ScanAny(s[1..], Blank(10), p);
        ConvertAny(d, q.base, q.uc, args);
        var e, e' := Convert(d, args), Convert(Scan(s[1..], q), args);
        if d.conv != '\0' && e.Emitted? {
          GuardedIsSafe(d.rest, e.args, e.p, e'.p);
        }
      }
    }
  }

  /** As far as body agrees with itself shifted past the prefix, it has no space. */
  lemma {:induction false} NoSpace(prefix: string, body: string, m: nat)
    requires |prefix| == 2 && prefix[0] != ' ' && prefix[1] != ' ' && m <= |body|
    requires forall i :: 0 <= i < m ==> (prefix + body)[i] == body[i]
    ensures forall i :: 0 <= i < m + 2 ==> (prefix + body)[i] != ' '
  {
    if m > 0 {
      NoSpace(prefix, body, m - 1);
      assert (prefix + body)[m + 1] == body[m - 1] == (prefix + body)[m - 1];
    }
  }

  lemma LeftDiffers(prefix: string, body: string, n: nat)
    requires |prefix| == 2 && prefix[0] != ' ' && prefix[1] != ' ' && n >= 2
    ensures prefix + body + Repeat(' ', n - 2) != body + Repeat(' ', n)
  {
    var a, b := prefix + body + Repeat(' ', n - 2), body + Repeat(' ', n);
    assert forall i :: 0 <= i < |body| + 2 ==> a[i] == (prefix + body)[i];
    assert forall i :: 0 <= i < |body| ==> b[i] == body[i];
    if forall i :: 0 <= i < |body| ==> (prefix + body)[i] == body[i] {
      NoSpace(prefix, body, |body|);
      assert b[|body|] == ' ' && a[|body|] != ' ';
    } else {
      var i :| 0 <= i < |body| && (prefix + body)[i] != body[i];
      assert a[i] != b[i];
    }
  }

  /** A prefix shows. */
  lemma LaidLonger(f: Field, g: Field, body: string)
    requires f.alt && f.sign == "" && g == f.(base := 16, uc := g.uc) && f.base == 10
    ensures |Laid(g, body)| >= |Laid(f, body)| && Laid(g, body) != Laid(f, body)
  {
    var prefix, n := Prefix(g), Fill(f, body);
    assert Prefix(f) == "" && |prefix| == 2 && prefix[0] == '0' && prefix[1] != '0' && prefix[1] != ' ';
    if n >= 2 {
      if f.lz {
        assert (f.sign + prefix + Repeat('0', n - 2) + body)[1] == prefix[1];
        assert (f.sign + Prefix(f) + Repeat('0', n) + body)[1] == '0';
      } else if f.left {
        LeftDiffers(prefix, body, n);
        assert f.sign + prefix + body == prefix + body && f.sign + Prefix(f) + body == body;
      } else {
        assert (Repeat(' ', n - 2) + f.sign + prefix + body)[n - 2] == '0';
        assert (Repeat(' ', n) + f.sign + Prefix(f) + body)[n - 2] == ' ';
      }
    }
  }

  lemma LongerOrDifferent(a: string, b: string, r: string, t: string)
    requires |a| >= |b| && a != b && |r| >= |t|
    ensures a + r != b + t
  {
    if |a| == |b| {
      var i :| 0 <= i < |a| && a[i] != b[i];
      assert (a + r)[i] != (b + t)[i];
    }
  }

  /** The guard is exact: without it the text depends on what the structure held. */
  lemma {:induction false} UnguardedVaries(s: CStr, args: seq<Arg>, p: Field, q: Field)
    requires p.base == 10 && q.base == 16 && Formatted(s, args, p).Some?
    ensures Formatted(s, args, q).Some? && |Formatted(s, args, q).value| >= |Formatted(s, args, p).value|
    ensures !Guarded(s) ==> Formatted(s, args, q) != Formatted(s, args, p)
    decreases |s|
  {
    hide Scan, Laid;
    if s != [] {
      if s[0] != '%' {
        UnguardedVaries(s[1..], args, p, q);
        assert Formatted(s, args, q).value[1..] == Formatted(s[1..], args, q).value;
        assert Formatted(s, args, p).value[1..] == Formatted(s[1..], args, p).value;
      } else {
        var d, d' := Scan(s[1..], p), Scan(s[1..], q);
        ScanAny(s[1..], p, q);
        ScanAny(s[1..], Blank(10), p);
        if d.conv != '\0' {
          UnguardedStep(s, d, d', args, p, q);
        }
      }
    }
  }

  lemma {:induction false} UnguardedStep(s: CStr, d: Directive, d': Directive, args: seq<Arg>, p: Field, q: Field)
    requires s != [] && s[0] == '%' && d == Scan(s[1..], p) && d' == Scan(s[1..], q) && d.conv != '\0'
    requires p.base == 10 && q.base == 16 && Formatted(s, args, p).Some?
    requires d' == d.(f := d.f.(base := q.base, uc := q.uc)) && d == Scan(s[1..], Blank(10)).(f := d.f)
    requires d.f.alt == Scan(s[1..], Blank(10)).f.alt
    ensures Formatted(s, args, q).Some? && |Formatted(s, args, q).value| >= |Formatted(s, args, p).value|
    ensures !Guarded(s) ==> Formatted(s, args, q) != Formatted(s, args, p)
    decreases |s|, 0
  {
    hide Scan, Laid, NumberText, NumberField;
    ConvertAny(d, q.base, q.uc, args);
    var e, e' := Convert(d, args), Convert(d', args);
    if Numeric(d.conv) {
      GuardedIsSafe(d.rest, e.args, e.p, e'.p);
    } else {
      UnguardedVaries(d.rest, e.args, e.p, e'.p);
      var r, t := Formatted(d.rest, e.args, e'.p).value, Formatted(d.rest, e.args, e.p).value;
      if d.conv == 's' && d.f.alt {
        LaidLonger(d.f, d'.f, args[0].s);
        LongerOrDifferent(e'.text, e.text, r, t);
      } else if r != t {
        assert (e.text + r)[|e.text|..] == r && (e.text + t)[|e.text|..] == t;
      }
    }
  }
}
