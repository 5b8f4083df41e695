/** The boot archive: from_oct, the walk over tar headers, and reading a file. */
module Tar {
  import opened Machine

  const BLOCK := 512
  const NAME_FIELD := 100
  const SIZE_FIELD := 124
  const SIZE_LENGTH := 12

  type Bytes = seq<Octet>

  // ---------- Octal fields ----------

  predicate IsBlank(c: Octet) { c == 32 }

  predicate IsOctal(c: Octet) { 48 <= c <= 55 }

  function Blanks(f: Bytes): (i: nat)
    ensures i <= |f| && (i < |f| ==> !IsBlank(f[i])) && forall j :: 0 <= j < i ==> IsBlank(f[j])
  {
    if f == [] || !IsBlank(f[0]) then 0 else 1 + Blanks(f[1..])
  }

  function Digits(f: Bytes): (k: nat)
    ensures k <= |f| && (k < |f| ==> !IsOctal(f[k])) && forall j :: 0 <= j < k ==> IsOctal(f[j])
  {
    if f == [] || !IsOctal(f[0]) then 0 else 1 + Digits(f[1..])
  }

  function OctalDigit(c: Octet): (d: nat)
    requires IsOctal(c)
    ensures d < 8
  {
    c as int - 48
  }

  function OctalValue(ds: Bytes): (n: nat)
    requires forall j :: 0 <= j < |ds| ==> IsOctal(ds[j])
  {
    if ds == [] then 0 else OctalValue(ds[..|ds| - 1]) * 8 + OctalDigit(ds[|ds| - 1])
  }

  /** A 32-bit long shifted left by three, with a digit or-ed in. */
  function Shifted(value: int, d: nat): int
    requires d < 8
  {
    Signed32(value * 8 + d)
  }

  /** The value the code accumulates, in 32-bit arithmetic. */
  function Wrapped(ds: Bytes): int
    requires forall j :: 0 <= j < |ds| ==> IsOctal(ds[j])
  {
    if ds == [] then 0 else Shifted(Wrapped(ds[..|ds| - 1]), OctalDigit(ds[|ds| - 1]))
  }

  lemma {:induction false} WrappedIs(ds: Bytes)
    requires forall j :: 0 <= j < |ds| ==> IsOctal(ds[j])
    ensures Wrapped(ds) == Signed32(OctalValue(ds))
  {
    if ds != [] {
      WrappedIs(ds[..|ds| - 1]);
      ShiftedSigned(OctalValue(ds[..|ds| - 1]), OctalDigit(ds[|ds| - 1]));
    }
  }

  lemma ShiftedSigned(n: nat, d: nat)
    requires d < 8
    ensures Shifted(Signed32(n), d) == Signed32(n * 8 + d)
  {}

  /** A field is blanks, then digits, then the end, a blank or a nul. */
  function Parsed(f: Bytes): int {
    var i := Blanks(f);
    var k := Digits(f[i..]);
    if i == |f| then -1
    else if i + k < |f| && f[i + k] != 0 && !IsBlank(f[i + k]) then -1
    else Wrapped(f[i..][..k])
  }

  method FromOct(f: Bytes) returns (value: int)
    requires f != []
    ensures value == Parsed(f)
  {
    var where, digs := 0, |f|;
    while IsBlank(f[where])
      invariant where + digs == |f| && where < |f| && where <= Blanks(f)
      decreases digs
    {
      where, digs := where + 1, digs - 1;
      if digs <= 0 {
        return -1;
      }
    }
    var k;
    value, k := ScanDigits(f[where..]);
    where, digs := where + k, digs - k;
    if digs > 0 && f[where] != 0 && !IsBlank(f[where]) {
      return -1;
    }
  }

  method ScanDigits(f: Bytes) returns (value: int, k: nat)
    ensures k == Digits(f) && value == Wrapped(f[..k])
  {
    value, k := 0, 0;
    while k < |f| && IsOctal(f[k])
      invariant k <= Digits(f) && value == Wrapped(f[..k])
    {
      assert f[..k + 1][..k] == f[..k];
      value := Shifted(value, OctalDigit(f[k]));
      k := k + 1;
    }
  }

  /** A size as the archive format writes it: octal digits, ended by a blank or a nul, or
      by the field. Leading blanks are allowed. */
  ghost predicate EncodesSize(f: Bytes, n: nat) {
    var i := Blanks(f);
    var k := Digits(f[i..]);
    i < |f| && (i + k < |f| ==> f[i + k] == 0 || IsBlank(f[i + k])) && OctalValue(f[i..][..k]) == n
  }

  lemma ParsedIs(f: Bytes, n: nat)
    requires EncodesSize(f, n)
    ensures Parsed(f) == Signed32(n)
  {
    WrappedIs(f[Blanks(f)..][..Digits(f[Blanks(f)..])]);
  }

  /** Any other field gives -1: blanks alone, or digits ended by something else. */
  lemma ParsedElse(f: Bytes)
    requires forall n: nat :: !EncodesSize(f, n)
    ensures Parsed(f) == -1
  {
    if Parsed(f) != -1 {
      assert EncodesSize(f, OctalValue(f[Blanks(f)..][..Digits(f[Blanks(f)..])]));
    }
  }

  lemma ParsedIsSize(f: Bytes, n: nat)
    requires EncodesSize(f, n) && n < U32 / 2
    ensures Parsed(f) == n
  {
    ParsedIs(f, n);
  }

  // ---------- Archives ----------

  datatype Entry = Entry(name: Bytes, data: Bytes)

  predicate EntryOk(e: Entry) {
    0 < |e.name| < NAME_FIELD && 0 !in e.name && |e.data| < U32 / 2
  }

  /** Whole blocks for n bytes, computed as the code does. */
  function Padded(n: nat): (p: nat)
    ensures n <= p < n + BLOCK && p % BLOCK == 0
  {
    BLOCK * (if n % BLOCK != 0 then n / BLOCK + 1 else n / BLOCK)
  }

  /** A header block at th with the entry's name and size; the other fields are free. */
  ghost predicate HeaderAt(img: Bytes, th: nat, e: Entry) {
    && EntryOk(e) && th + BLOCK <= |img|
    && img[th..th + |e.name|] == e.name && img[th + |e.name|] == 0
    && EncodesSize(img[th + SIZE_FIELD..th + SIZE_FIELD + SIZE_LENGTH], |e.data|)
  }

  /** The image from th on is these entries: header, data, padding to whole blocks; then
      the image ends or a block starts with a nul. */
  ghost predicate LaidOut(img: Bytes, th: nat, es: seq<Entry>)
    decreases |es|
  {
    if es == [] then th >= |img| || img[th] == 0
    else
      var data := th + BLOCK;
      var next := data + Padded(|es[0].data|);
      && HeaderAt(img, th, es[0])
      && next <= |img| && img[data..data + |es[0].data|] == es[0].data
      && LaidOut(img, next, es[1..])
  }

  datatype File = File(name: Bytes, data: nat, size: nat)

  /** A file the walk found is an entry of the archive. */
  ghost predicate Found(img: Bytes, f: File, e: Entry) {
    f.name == e.name && f.size == |e.data| && f.data + f.size <= |img| && img[f.data..f.data + f.size] == e.data
  }

  /** A terminated name. */
  method ReadName(img: Bytes, th: nat, ghost e: Entry) returns (name: Bytes)
    requires HeaderAt(img, th, e)
    ensures name == e.name
  {
    NameBytes(img, th, e);
    var i := 0;
    while img[th + i] != 0
      invariant i <= |e.name|
      decreases |e.name| - i
    {
      i := i + 1;
    }
    name := img[th..th + i];
  }

  /** The walk, over an archive that lies inside the 32-bit address space: it ends, and it
      finds exactly the entries, in order. */
  method Walk(img: Bytes, start: nat, ghost es: seq<Entry>) returns (files: seq<File>)
    requires LaidOut(img, 0, es) && start + |img| < U32
    ensures |files| == |es| && forall i :: 0 <= i < |es| ==> Found(img, files[i], es[i])
  {
    hide LaidOut, HeaderAt, Found, EncodesSize, NextHeader, Padded, Parsed;
    files := [];
    var th := 0;
    ghost var left := es;
    while th < |img|
      invariant |files| + |left| == |es| && left == es[|files|..] && LaidOut(img, th, left)
      invariant forall i :: 0 <= i < |files| ==> Found(img, files[i], es[i])
      decreases |img| - th
    {
      Opens(img, th, left);
      if img[th] == 0 {
        break;
      }
      var name := ReadName(img, th, left[0]);
      var size := FromOct(img[th + SIZE_FIELD..th + SIZE_FIELD + SIZE_LENGTH]);
      var data := th + BLOCK;
      FoundAt(img, th, left, name, size);
      files := files + [File(name, data, size)];
      NoWrap(start + th, size);
      assert NextHeader(start + th, size) == start + data + Padded(size);
      th := data + Padded(size);
      left := left[1..];
    }
    Ends(img, th, left);
  }

  /** An entry's block starts with its name, so only the end of the archive has a nul. */
  lemma {:induction false} Opens(img: Bytes, th: nat, es: seq<Entry>)
    requires LaidOut(img, th, es) && th < |img|
    ensures img[th] == 0 <==> es == []
    ensures es != [] ==> HeaderAt(img, th, es[0]) && th + BLOCK <= |img|
  {}

  lemma {:induction false} Ends(img: Bytes, th: nat, es: seq<Entry>)
    requires LaidOut(img, th, es) && (th >= |img| || img[th] == 0)
    ensures es == []
  {}

  lemma FoundAt(img: Bytes, th: nat, es: seq<Entry>, name: Bytes, size: int)
    requires es != [] && LaidOut(img, th, es) && name == es[0].name
    requires th + BLOCK <= |img| && size == Parsed(img[th + SIZE_FIELD..th + SIZE_FIELD + SIZE_LENGTH])
    ensures size == |es[0].data| && Found(img, File(name, th + BLOCK, size), es[0])
    ensures th + BLOCK + Padded(size) <= |img| && LaidOut(img, th + BLOCK + Padded(size), es[1..])
  {
    hide EncodesSize, Parsed, Padded;
    ParsedIsSize(img[th + SIZE_FIELD..th + SIZE_FIELD + SIZE_LENGTH], |es[0].data|);
  }

  /** An image is laid out as at most one list of entries. */
  lemma {:induction false} LaidOutUnique(img: Bytes, th: nat, es: seq<Entry>, fs: seq<Entry>)
    requires LaidOut(img, th, es) && LaidOut(img, th, fs)
    ensures es == fs
    decreases |es|
  {
    hide HeaderAt, Padded;
    if th >= |img| || img[th] == 0 {
      Ends(img, th, es);
      Ends(img, th, fs);
    } else {
      Opens(img, th, es);
      Opens(img, th, fs);
      EntryUnique(img, th, es[0], fs[0]);
      LaidOutUnique(img, th + BLOCK + Padded(|es[0].data|), es[1..], fs[1..]);
      assert es == [es[0]] + es[1..] && fs == [fs[0]] + fs[1..];
    }
  }

  lemma EntryUnique(img: Bytes, th: nat, e: Entry, f: Entry)
    requires HeaderAt(img, th, e) && HeaderAt(img, th, f)
    ensures e.name == f.name && |e.data| == |f.data|
  {}

  lemma NameBytes(img: Bytes, th: nat, e: Entry)
    requires HeaderAt(img, th, e)
    ensures img[th + |e.name|] == 0
    ensures forall j :: th <= j < th + |e.name| ==> img[j] == e.name[j - th] != 0
  {}

  // ---------- One step of the walk, on any header ----------

  /** The size_t that a field's value becomes. */
  function SizeOf(value: int): (size: nat)
    requires -U32 / 2 <= value < U32 / 2
    ensures size < U32
  {
    if value < 0 then value + U32 else value
  }

  /** The address of the next header, in 32-bit arithmetic. */
  function NextHeader(th: nat, size: nat): nat { (th + BLOCK + Padded(size) % U32) % U32 }

  lemma NoWrap(th: nat, size: nat)
    requires th + BLOCK + Padded(size) < U32
    ensures NextHeader(th, size) == th + BLOCK + Padded(size)
  {}

  /** The walk moves to a higher address exactly if the header and the padded size, taken
      modulo 2^32, end inside the address space; otherwise it goes back, or stays where it
      is. A size less than a block below 2^32 pads to 0, so its walk moves on by the header
      alone. */
  lemma StepsForward(th: nat, size: nat)
    requires th < U32 && size < U32
    ensures NextHeader(th, size) > th <==> th + BLOCK + Padded(size) % U32 < U32
    ensures NextHeader(th, size) == th <==> U32 - 2 * BLOCK < size <= U32 - BLOCK
  {}

  // ---------- A writer, for the round trip ----------

  function Zeros(n: nat): (z: Bytes)
    ensures |z| == n && forall i :: 0 <= i < n ==> z[i] == 0
  {
    seq(n, _ => 0)
  }

  /** k octal digits, zero-filled. */
  function OctalText(n: nat, k: nat): (t: Bytes)
    ensures |t| == k && forall i :: 0 <= i < k ==> IsOctal(t[i])
  {
    if k == 0 then [] else OctalText(n / 8, k - 1) + [(48 + n % 8) as Octet]
  }

  function Pow8(k: nat): nat { if k == 0 then 1 else 8 * Pow8(k - 1) }

  lemma {:induction false} OctalTextValue(n: nat, k: nat)
    requires n < Pow8(k)
    ensures OctalValue(OctalText(n, k)) == n
  {
    if k > 0 {
      OctalTextValue(n / 8, k - 1);
      assert OctalText(n, k)[..k - 1] == OctalText(n / 8, k - 1);
    }
  }

  /** A header with the fields before and after the size field given. */
  function Header(e: Entry, ids: Bytes, rest: Bytes): (h: Bytes)
    requires EntryOk(e) && |ids| == SIZE_FIELD - NAME_FIELD && |rest| == BLOCK - SIZE_FIELD - SIZE_LENGTH
    ensures |h| == BLOCK
  {
    e.name + Zeros(NAME_FIELD - |e.name|) + ids + (OctalText(|e.data|, 11) + [0]) + rest
  }

  function Encode(es: seq<Entry>, ids: Bytes, rest: Bytes): Bytes
    requires (forall i :: 0 <= i < |es| ==> EntryOk(es[i]))
    requires |ids| == SIZE_FIELD - NAME_FIELD && |rest| == BLOCK - SIZE_FIELD - SIZE_LENGTH
  {
    if es == [] then Zeros(2 * BLOCK)
    else Header(es[0], ids, rest) + es[0].data + Zeros(Padded(|es[0].data|) - |es[0].data|) + Encode(es[1..], ids, rest)
  }

  lemma {:induction false} SizeFieldOk(n: nat)
    requires n < 0x2_0000_0000
    ensures EncodesSize(OctalText(n, 11) + [0], n)
  {
    var f := OctalText(n, 11) + [0];
    assert Pow8(11) == 0x2_0000_0000;
    OctalTextValue(n, 11);
    assert IsOctal(f[0]);
    assert Blanks(f) == 0 && f[0..] == f;
    assert !IsOctal(f[11]) && forall i :: 0 <= i < 11 ==> IsOctal(f[i]);
    assert Digits(f) == 11;
    assert f[..11] == OctalText(n, 11);
  }

  /** A field of 11 digits for n, behind any spaces, and ended by a nul, a space or the field
      itself, gives n as a signed number. */
  lemma {:induction false} FieldGives(blanks: nat, n: nat, rest: Bytes)
    requires n < 0x2_0000_0000 && (rest == [] || rest[0] == 0 || rest[0] == 32)
    ensures Parsed(seq(blanks, _ => 32) + OctalText(n, 11) + rest) == Signed32(n)
  {
    hide Parsed, Signed32, OctalText;
    var t := OctalText(n, 11);
    var f := seq(blanks, _ => 32) + t + rest;
    assert Pow8(11) == 0x2_0000_0000;
    OctalTextValue(n, 11);
    assert IsOctal(t[0]) && f[blanks] == t[0];
    assert Blanks(f) == blanks;
    var g := f[blanks..];
    assert g == t + rest;
    assert forall i :: 0 <= i < 11 ==> g[i] == t[i] && IsOctal(g[i]);
    assert rest != [] ==> g[11] == rest[0] && f[blanks + 11] == rest[0];
    assert Digits(g) == 11 && g[..11] == t;
    ParsedIs(f, n);
  }

  /** An octal size of 2^32 - 512, which fits its field, holds the walk at its header for good. */
  lemma WalkCanLoop(th: nat)
    requires th < U32
    ensures var size := Parsed(OctalText(U32 - 512, 11) + [0]);
            size == -512 && NextHeader(th, SizeOf(size)) == th
  {
    hide Parsed, EncodesSize, NextHeader, Padded, OctalText;
    SizeFieldOk(U32 - 512);
    ParsedIs(OctalText(U32 - 512, 11) + [0], U32 - 512);
    StepsForward(th, U32 - 512);
  }

  /** The image may start anywhere in a longer one. */
  lemma {:induction false} EncodeLaidOut(before: Bytes, es: seq<Entry>, ids: Bytes, rest: Bytes)
    requires forall i :: 0 <= i < |es| ==> EntryOk(es[i])
    requires |ids| == SIZE_FIELD - NAME_FIELD && |rest| == BLOCK - SIZE_FIELD - SIZE_LENGTH
    ensures LaidOut(before + Encode(es, ids, rest), |before|, es)
    decreases |es|
  {
    hide Header, Zeros, HeaderAt, Padded;
    var img := before + Encode(es, ids, rest);
    if es == [] {
      assert img[|before|] == Zeros(2 * BLOCK)[0];
    } else {
      var e := es[0];
      var head := Header(e, ids, rest) + e.data;
      var more := before + head + Zeros(Padded(|e.data|) - |e.data|);
      assert img == more + Encode(es[1..], ids, rest);
      EncodeLaidOut(more, es[1..], ids, rest);
      assert before + Header(e, ids, rest) + e.data == before + head;
      HeaderLaidOut(before, e, ids, rest, img);
    }
  }

  lemma HeaderFields(e: Entry, ids: Bytes, rest: Bytes)
    requires EntryOk(e) && |ids| == SIZE_FIELD - NAME_FIELD && |rest| == BLOCK - SIZE_FIELD - SIZE_LENGTH
    ensures var h := Header(e, ids, rest);
            && h[..|e.name|] == e.name && h[|e.name|] == 0
            && h[SIZE_FIELD..SIZE_FIELD + SIZE_LENGTH] == OctalText(|e.data|, 11) + [0]
  {}

  lemma HeaderLaidOut(before: Bytes, e: Entry, ids: Bytes, rest: Bytes, img: Bytes)
    requires EntryOk(e) && |ids| == SIZE_FIELD - NAME_FIELD && |rest| == BLOCK - SIZE_FIELD - SIZE_LENGTH
    requires before + Header(e, ids, rest) + e.data <= img
    ensures HeaderAt(img, |before|, e)
    ensures img[|before| + BLOCK..|before| + BLOCK + |e.data|] == e.data
  {
    hide EncodesSize, Header, OctalText;
    var th, h := |before|, Header(e, ids, rest);
    SizeFieldOk(|e.data|);
    HeaderFields(e, ids, rest);
    var whole := before + h + e.data;
    Slice(img, 0, whole, th, th + BLOCK);
    Slice(img, 0, whole, th + BLOCK, th + BLOCK + |e.data|);
    assert whole[th..th + BLOCK] == h && whole[th + BLOCK..th + BLOCK + |e.data|] == e.data;
    Slice(img, th, h, 0, |e.name|);
    Slice(img, th, h, |e.name|, |e.name| + 1);
    Slice(img, th, h, SIZE_FIELD, SIZE_FIELD + SIZE_LENGTH);
  }

  /** A slice of a slice. */
  lemma {:induction false} Slice(img: Bytes, th: nat, h: Bytes, a: nat, b: nat)
    requires th + |h| <= |img| && img[th..th + |h|] == h && a <= b <= |h|
    ensures img[th + a..th + b] == h[a..b] && (a < b ==> img[th + a] == h[a])
  {
    forall i | a <= i < b ensures img[th + i] == h[i] {
      assert img[th..th + |h|][i] == img[th + i];
    }
  }

  // ---------- Reading ----------

  /** What a read of n bytes at pos returns. */
  function ReadAt(data: Bytes, pos: nat, n: nat): (r: Bytes)
    ensures |r| == if pos > |data| then 0 else if n < |data| - pos then n else |data| - pos
  {
    if pos > |data| then [] else if n < |data| - pos then data[pos..pos + n] else data[pos..]
  }

  /** A sum of two words, as a word. */
  function WordSum(a: nat, b: nat): (c: nat)
    requires a < U32 && b < U32
    ensures c == if a + b < U32 then a + b else a + b - U32
  {
    (a + b) % U32
  }

  class FileHandle {
    const data: Bytes
    var pos: nat

    constructor (data: Bytes)
      ensures this.data == data && pos == 0
    {
      this.data := data;
      pos := 0;
    }

    /** The sum in the size test may wrap around, which the loop's own test makes up for. */
    method Read(bytes: nat, buffer: array<Octet>) returns (j: nat)
      requires bytes < U32 && pos < U32 && |data| < U32 && |ReadAt(data, pos, bytes)| <= buffer.Length
      modifies `pos, buffer
      ensures j == |ReadAt(data, old(pos), bytes)| && buffer[..j] == ReadAt(data, old(pos), bytes)
      ensures buffer[j..] == old(buffer[j..])
      ensures pos == old(pos) + j < U32
    {
      j := 0;
      if pos > |data| {
        return;
      }
      var n := bytes;
      if WordSum(pos, bytes) > |data| {
        n := |data| - pos;
      }
      ghost var asked := ReadAt(data, pos, bytes);
      var i := pos;
      while i < |data| && j < n
        invariant pos == old(pos) && i == pos + j <= |data| && j <= n && j <= |asked|
        invariant buffer[..j] == asked[..j] && buffer[j..] == old(buffer[j..])
      {
        ghost var was := buffer[j + 1..];
        assert was == old(buffer[j..])[1..] == old(buffer[j + 1..]);
        buffer[j] := data[i];
        assert buffer[..j + 1] == buffer[..j] + [asked[j]] && buffer[j + 1..] == was;
        i, j := i + 1, j + 1;
      }
      assert j == |asked|;
      pos := pos + j;
    }
  }

  /** What a run of reads returns, from pos on, put together. */
  function ReadAll(data: Bytes, pos: nat, sizes: seq<nat>): Bytes
    decreases |sizes|
  {
    if sizes == [] then []
    else var r := ReadAt(data, pos, sizes[0]); r + ReadAll(data, pos + |r|, sizes[1..])
  }

  function Sum(sizes: seq<nat>): nat {
    if sizes == [] then 0 else sizes[0] + Sum(sizes[1..])
  }

  /** Reads of any sizes return the data in order: all of it once they ask for that much. */
  lemma {:induction false} ReadsReproduce(data: Bytes, pos: nat, sizes: seq<nat>)
    requires pos <= |data|
    ensures ReadAll(data, pos, sizes) == ReadAt(data, pos, Sum(sizes))
    ensures Sum(sizes) >= |data| - pos ==> ReadAll(data, pos, sizes) == data[pos..]
    decreases |sizes|
  {
    hide ReadAt;
    if sizes != [] {
      var r := ReadAt(data, pos, sizes[0]);
      ReadsReproduce(data, pos + |r|, sizes[1..]);
      ReadTwice(data, pos, sizes[0], Sum(sizes[1..]));
    }
    ReadWhole(data, pos, Sum(sizes));
  }

  lemma ReadWhole(data: Bytes, pos: nat, n: nat)
    requires pos <= |data|
    ensures n == 0 ==> ReadAt(data, pos, n) == []
    ensures n >= |data| - pos ==> ReadAt(data, pos, n) == data[pos..]
  {}

  lemma ReadTwice(data: Bytes, pos: nat, m: nat, n: nat)
    requires pos <= |data|
    ensures var r := ReadAt(data, pos, m); r + ReadAt(data, pos + |r|, n) == ReadAt(data, pos, m + n)
  {}
}
