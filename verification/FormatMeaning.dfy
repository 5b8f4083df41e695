/** What the text of a format says, without the formatter: the conversions, bases, prefixes
    and digits are written out here, and the formatter is proved to produce them. */
module FormatMeaning {
  import opened Machine
  import opened Digits
  import opened Printf

  // ---------- Text that shows a number ----------

  /** The sixteen digits. */
  function Alphabet(upper: bool): string { if upper then "0123456789ABCDEF" else "0123456789abcdef" }

  /** t shows n: its characters are digits of the base, without leading zeros, with that
      value. */
  ghost predicate Shows(t: string, n: nat, b: Base, upper: bool) {
    exists ds: seq<nat> ::
      && |ds| == |t| > 0 && (ds[0] == 0 ==> |ds| == 1) && Value(ds, b) == n
      && forall i :: 0 <= i < |ds| ==> ds[i] < b && t[i] == Alphabet(upper)[ds[i]]
  }

  lemma {:induction false} PrintedShows(n: nat, b: Base, uc: bool, upper: bool)
    requires b <= 10 || uc == upper
    ensures Shows(Printed(n, b, uc), n, b, upper)
  {
    var ds, t := Numeral(n, b), Printed(n, b, uc);
    NumeralDigits(n, b);
    NumeralValue(n, b);
    forall i | 0 <= i < |ds| ensures t[i] == Alphabet(upper)[ds[i]] {
      DigitIs(ds[i], uc);
      DigitIs(ds[i], upper);
    }
  }

  lemma DigitIs(d: nat, uc: bool)
    requires d < 16
    ensures DigitChar(d, uc) == Alphabet(uc)[d]
    ensures d < 10 ==> DigitChar(d, uc) == Alphabet(!uc)[d]
  {}

  /** The filling that brings parts to a width; none if the width is no signed integer. */
  function Filling(width: nat, parts: nat): nat {
    if parts < width < 0x8000_0000 then width - parts else 0
  }

  /** lead and body in a field: filled with zeros between them, or with spaces on one side. */
  function Justified(zeros: bool, left: bool, width: nat, lead: string, body: string): string {
    var n := Filling(width, |lead| + |body|);
    if zeros then lead + seq(n, _ => '0') + body
    else if left then lead + body + seq(n, _ => ' ')
    else seq(n, _ => ' ') + lead + body
  }

  lemma LaidIs(f: Field, body: string)
    requires f.width < U32
    ensures Laid(f, body) == Justified(f.lz, f.left, f.width, f.sign + Prefix(f), body)
  {
    hide Prefix;
    var n := Fill(f, body);
    assert n == Filling(f.width, |f.sign + Prefix(f)| + |body|);
    assert Repeat('0', n) == seq(n, _ => '0') && Repeat(' ', n) == seq(n, _ => ' ');
    assert Repeat(' ', n) + f.sign + Prefix(f) + body == Repeat(' ', n) + (f.sign + Prefix(f)) + body;
  }

  // ---------- The conversions ----------

  /** Which argument a numeric conversion takes, and the number it stands for. */
  predicate TakesWide(d: Directive) { d.lng == 2 && d.conv in "udixX" }

  predicate HasArg(d: Directive, args: seq<Arg>) {
    args != [] && if TakesWide(d) then args[0].Wide? else args[0].Word?
  }

  function Number(d: Directive, args: seq<Arg>): int
    requires HasArg(d, args)
  {
    if TakesWide(d) then
      var n := args[0].x;
      if d.conv in "di" && n >= 0x8000_0000_0000_0000 then n - 0x1_0000_0000_0000_0000 else n
    else
      var n := args[0].w;
      if d.conv in "di" && n >= 0x8000_0000 then n - 0x1_0000_0000 else n
  }

  function Radix(conv: char): Base { match conv case 'o' => 8 case 'x' | 'X' | 'p' => 16 case _ => 10 }

  function Mark(conv: char, alt: bool): string {
    match conv
    case 'o' => if alt then "0" else ""
    case 'x' => if alt then "0x" else ""
    case 'X' => if alt then "0X" else ""
    case 'p' => "0x"
    case _ => ""
  }

  /** A numeric conversion shows the value of its argument: a minus sign exactly if it is
      negative, the mark of the alternate form, and the digits of the magnitude. */
  lemma NumberMeans(d: Directive, args: seq<Arg>) returns (digits: string)
    requires d.conv in "udixXpo" && FieldOk(d.f) && HasArg(d, args)
    ensures var v, e := Number(d, args), Convert(d, args);
            && Shows(digits, if v < 0 then -v else v, Radix(d.conv), d.conv == 'X')
            && e.Emitted? && e.args == args[1..]
            && e.text == Justified(d.f.lz, d.f.left, d.f.width, (if v < 0 then "-" else "") + Mark(d.conv, d.f.alt), digits)
  {
    hide Laid, Printed, Shows, Justified;
    var v, n := Number(d, args), Fetch(d, args[0]).value;
    var f := NumberField(d).(sign := if v < 0 then "-" else "");
    digits := Printed(Magnitude(d, n), f.base, f.uc);
    PrintedShows(Magnitude(d, n), f.base, f.uc, d.conv == 'X');
    LaidIs(f, digits);
    assert Prefix(f) == Mark(d.conv, d.f.alt);
  }

  /** Without its argument, or with one of another size, the format has no meaning. */
  lemma NumberNeeds(d: Directive, args: seq<Arg>)
    requires d.conv in "udixXpo" && !HasArg(d, args)
    ensures Convert(d, args).Mismatch?
  {}

  /** The other conversions: a character, a string in its field, and a percent sign; any other
      letter prints nothing and takes nothing. The alternate form of a string is marked like
      a number in the base, and case, of the last numeric conversion. */
  lemma OthersMean(d: Directive, args: seq<Arg>)
    requires FieldOk(d.f) && d.f.sign == "" && d.conv !in "udixXpo"
    ensures var e := Convert(d, args);
            if d.conv == 'c' then
              if args != [] && args[0].Word? then e == Emitted([(args[0].w % 256) as char], args[1..], d.f) else e.Mismatch?
            else if d.conv == 's' then
              if args != [] && args[0].Str? then
                && e.Emitted? && e.args == args[1..] && e.p == d.f
                && var mark := if !d.f.alt then "" else if d.f.base == 8 then "0" else
                               if d.f.base != 16 then "" else if d.f.uc then "0X" else "0x";
                   e.text == Justified(d.f.lz, d.f.left, d.f.width, mark, args[0].s)
              else e.Mismatch?
            else e == Emitted(if d.conv == '%' then "%" else "", args, d.f)
  {
    hide Laid, Justified;
    if d.conv == 's' && args != [] && args[0].Str? {
      LaidIs(d.f, args[0].s);
      assert d.f.sign + Prefix(d.f) == Prefix(d.f);
    }
  }

  /** What a numeric conversion leaves for the next: its base, and in base 16 its case. */
  lemma NumberLeaves(d: Directive, args: seq<Arg>)
    requires d.conv in "udixXpo" && Convert(d, args).Emitted?
    ensures var p := Convert(d, args).p;
            p.base == Radix(d.conv) && p.uc == (if d.conv in "xXp" then d.conv == 'X' else d.f.uc)
  {}

  // ---------- Whole formats ----------

  /** What a directive can end with: no flag, no digit (a2u takes the letter a for one), and
      nothing that is part of a precision or a length. */
  predicate Ends(conv: char) {
    && conv != '\0' && conv != '-' && conv != '#' && !('0' <= conv <= '9') && conv != 'a' && conv != 'A'
    && conv != '.' && conv != 'z' && conv != 'l'
  }

  /** A directive in a format: its text, made from its arguments, and then the rest. */
  lemma {:induction false} DirectiveMeans(flags: string, width: nat, precision: Option<string>, length: string, conv: char,
                                          rest: CStr, args: seq<Arg>, p: Field)
    requires (forall i :: 0 <= i < |flags| ==> flags[i] in "-0#") && width < U32
    requires precision.Some? ==> forall i :: 0 <= i < |precision.value| ==> precision.value[i] in "0123456789"
    requires length in ["", "z", "l", "ll"] && Ends(conv)
    ensures var s := "%" + Written(flags, width, precision, length, conv, rest);
            var f := Field('0' in flags || precision.Some?, '#' in flags, p.uc, '-' in flags, width, "", p.base);
            var d := Directive(f, if length == "ll" then 2 else if length == "" then 0 else 1, conv, rest);
            var e := Convert(d, args);
            && '\0' !in s && FieldOk(f)
            && Formatted(s, args, p) ==
               if e.Mismatch? then None else
               var r := Formatted(rest, e.args, e.p);
               if r.Some? then Some(e.text + r.value) else None
  {
    hide Scan, Convert, Written;
    AsWritten(flags, precision, conv);
    hide IsConversion;
    ScanReadsBack(flags, width, precision, length, conv, rest, p);
    var t := Written(flags, width, precision, length, conv, rest);
    assert ("%" + t)[1..] == t && ("%" + t)[0] == '%';
  }

  lemma AsWritten(flags: string, precision: Option<string>, conv: char)
    requires (forall i :: 0 <= i < |flags| ==> flags[i] in "-0#") && Ends(conv)
    requires precision.Some? ==> forall i :: 0 <= i < |precision.value| ==> precision.value[i] in "0123456789"
    ensures conv != '\0' && IsConversion(conv) && forall i :: 0 <= i < |flags| ==> IsFlag(flags[i])
    ensures precision.Some? ==> forall i :: 0 <= i < |precision.value| ==> IsDigit(precision.value[i])
  {
    forall i | 0 <= i < |flags| ensures IsFlag(flags[i]) { assert flags[i] in "-0#"; }
  }

  /** A format that ends inside a directive prints what came before it. */
  lemma {:induction false} UnfinishedStops(args: seq<Arg>, p: Field)
    ensures Formatted("%", args, p) == Some("") && Formatted("", args, p) == Some("")
  {
    var s: CStr := "%"[1..];
    assert s == [];
  }

  /** %d of a word, as one would read it: an optional minus sign and the decimal digits of
      the word's two's complement value. */
  lemma {:induction false} DecimalMeans(w: U32Word, p: Field) returns (digits: string)
    ensures var v: int := if w < 0x8000_0000 then w else w - 0x1_0000_0000;
            && Shows(digits, if v < 0 then -v else v, 10, false)
            && Formatted("%d", [Word(w)], p) == Some((if v < 0 then "-" else "") + digits)
  {
    hide Shows, Convert, Scan, Formatted, Justified, Written, Number;
    var f := Field(false, false, p.uc, false, 0, "", p.base);
    var d := Directive(f, 0, 'd', "");
    digits := NumberMeans(d, [Word(w)]);
    DirectiveMeans("", 0, None, "", 'd', "", [Word(w)], p);
    UnfinishedStops([], Convert(d, [Word(w)]).p);
    JustBody((if Number(d, [Word(w)]) < 0 then "-" else "") + Mark('d', false), digits);
    DecimalWritten();
    DecimalValue(d, w);
    var sign := if Number(d, [Word(w)]) < 0 then "-" else "";
    assert sign + Mark('d', false) == sign && (sign + digits) + "" == sign + digits;
  }

  lemma DecimalWritten()
    ensures "%" + Written("", 0, None, "", 'd', "") == "%d"
  {}

  lemma DecimalValue(d: Directive, w: U32Word)
    requires d.lng == 0 && d.conv == 'd'
    ensures HasArg(d, [Word(w)]) && Number(d, [Word(w)]) == if w < 0x8000_0000 then w else w - 0x1_0000_0000
  {}

  lemma JustBody(lead: string, body: string)
    ensures Justified(false, false, 0, lead, body) == lead + body
  {}
}
