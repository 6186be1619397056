/** The tar writer kept beside the reader, and the round trip through both. */
module TarWrite {
  import opened Text
  import opened Tar
  import opened TarBounds

  /** One byte per character of an ASCII text. */
  predicate IsAscii(s: string)
  {
    forall i :: 0 <= i < |s| ==> s[i] as int < 0x80
  }

  function Ascii(s: string): (b: Bytes)
    requires IsAscii(s)
    ensures |b| == |s| && forall i :: 0 <= i < |s| ==> b[i] == s[i] as int
  {
    seq(|s|, i requires 0 <= i < |s| => s[i] as int)
  }

  function Zeros(n: nat): (b: Bytes)
    ensures |b| == n && AllZero(b)
  {
    seq(n, i => 0)
  }

  function Repeat(c: char, n: nat): (s: string)
    ensures |s| == n && forall i :: 0 <= i < n ==> s[i] == c
  {
    seq(n, i => c)
  }

  lemma {:induction false} OctalLength(n: nat, k: nat)
    requires k >= 1 && n < Pow(8, k)
    ensures |Numeral(n, 8)| <= k
    decreases k
  {
    if n >= 8 {
      assert k > 1 && n / 8 < Pow(8, k - 1);
      OctalLength(n / 8, k - 1);
    }
  }

  /** `{:0width$o}`. */
  function OctalText(value: nat, width: nat): (s: string)
    ensures IsAscii(s) && AllDigits(s, 8)
  {
    var digits := Numeral(value, 8);
    Repeat('0', if |digits| < width then width - |digits| else 0) + digits
  }

  /** `write_octal`: the digits and a closing NUL, which takes the place of the last digit of a value
      that fills the field. A wider value has no encoding. */
  function OctalField(value: nat, len: nat): (b: Bytes)
    requires len >= 2 && value < Pow(8, len)
    ensures |b| == len
  {
    OctalLength(value, len);
    Ascii(OctalText(value, len - 1))[..len - 1] + [0]
  }

  // ---- Reading a field back ----

  lemma {:induction false} DecodeAscii(s: string)
    requires IsAscii(s)
    ensures Decode(Ascii(s)) == Some(s)
    decreases |s|
  {
    if s != "" {
      var b := Ascii(s);
      assert b[1..] == Ascii(s[1..]);
      DecodeAscii(s[1..]);
      assert DecodeOne(b) == Some((s[0], 1));
      assert s == [s[0]] + s[1..];
    }
  }

  lemma FirstZeroIs(bytes: Bytes, n: nat)
    requires n <= |bytes| && (forall i :: 0 <= i < n ==> bytes[i] != 0) && (n < |bytes| ==> bytes[n] == 0)
    ensures FirstZero(bytes) == n
  {
  }

  /** NUL-free bytes of a text without outer whitespace, padded with NULs, read back as the text. */
  lemma FieldTextOf(bytes: Bytes, s: string, slice: Bytes)
    requires 0 !in bytes && Decode(bytes) == Some(s) && Trim(s) == s && |bytes| <= |slice|
    requires slice[..|bytes|] == bytes && (|bytes| < |slice| ==> slice[|bytes|] == 0)
    ensures FieldText(slice) == Ok(s)
  {
    forall i | 0 <= i < |bytes| ensures slice[i] != 0 {
      assert slice[..|bytes|][i] == bytes[i] && bytes[i] in bytes;
    }
    FirstZeroIs(slice, |bytes|);
  }

  lemma DigitsAreTrimmed(s: string)
    requires s != "" && AllDigits(s, 8)
    ensures Trim(s) == s && TrimBlank(s) == s
  {
  }

  lemma {:induction false} LeadingZeros(z: string, s: string)
    requires AllDigits(s, 8) && forall i :: 0 <= i < |z| ==> z[i] == '0'
    ensures AllDigits(z, 8) && AllDigits(z + s, 8) && NumeralValue(z + s, 8) == NumeralValue(s, 8)
    decreases |s|, |z|
  {
    if s != "" {
      LeadingZeros(z, s[..|s| - 1]);
      assert (z + s)[..|z + s| - 1] == z + s[..|s| - 1];
    } else if z != "" {
      LeadingZeros(z[..|z| - 1], "");
      assert z + "" == z && z[..|z| - 1] + "" == z[..|z| - 1];
    }
  }

  lemma OctalTextValue(value: nat, width: nat)
    ensures NumeralValue(OctalText(value, width), 8) == value
  {
    var digits := Numeral(value, 8);
    NumeralRoundTrip(value, 8);
    LeadingZeros(Repeat('0', if |digits| < width then width - |digits| else 0), digits);
  }

  lemma OctalOf(s: string, slice: Bytes)
    requires s != "" && AllDigits(s, 8) && FieldText(slice) == Ok(s) && NumeralValue(s, 8) < U64
    ensures Octal(slice) == Ok(NumeralValue(s, 8))
  {
  }

  lemma FieldTextOfDigits(s: string)
    requires s != "" && AllDigits(s, 8) && IsAscii(s)
    ensures FieldText(Ascii(s) + [0]) == Ok(s)
  {
    DigitsAreTrimmed(s);
    DecodeAscii(s);
    assert 0 !in Ascii(s);
    FieldTextOf(Ascii(s), s, Ascii(s) + [0]);
  }

  /** A number written into a field is the number the reader finds there. */
  lemma OctalReadsBack(value: nat, len: nat)
    requires len >= 2 && value < Pow(8, len - 1) <= Pow(8, len) && value < U64
    ensures Octal(OctalField(value, len)) == Ok(value)
  {
    var s := OctalText(value, len - 1);
    OctalLength(value, len - 1);
    assert Ascii(s)[..len - 1] == Ascii(s);
    FieldTextOfDigits(s);
    OctalTextValue(value, len - 1);
    OctalOf(s, Ascii(s) + [0]);
  }

  // ---- The header block ----

  function Sum(bytes: Bytes): nat
  {
    if bytes == [] then 0 else Sum(bytes[..|bytes| - 1]) + bytes[|bytes| - 1]
  }

  /** Every byte counts once, wherever it stands. */
  lemma {:induction false} SumAdds(a: Bytes, x: Byte, b: Bytes)
    ensures Sum(a + [x] + b) == Sum(a) + x + Sum(b)
    decreases |b|
  {
    var all := a + [x] + b;
    if b == [] {
      assert all[..|all| - 1] == a;
    } else {
      assert all[..|all| - 1] == a + [x] + b[..|b| - 1];
      SumAdds(a, x, b[..|b| - 1]);
    }
  }

  const MAX_SIZE := 8589934592

  const MODE_END := 16777216

  lemma Widths()
    ensures Pow(8, 12) == SIZE_END && Pow(8, 11) == MAX_SIZE && Pow(8, 8) == MODE_END && Pow(8, 7) == 2097152
  {
    assert Pow(8, 4) == 4096;
  }

  /** As much of a name as its field holds. */
  function Cut(name: Bytes): (b: Bytes)
    ensures |b| <= 100
  {
    if |name| <= 100 then name else name[..100]
  }

  function NameField(name: Bytes): (b: Bytes)
    ensures |b| == 100
  {
    Cut(name) + Zeros(100 - |Cut(name)|)
  }

  /** The fields before the checksum: name, mode, owner, group, size, modification time. */
  function HeadFields(name: Bytes, size: nat, mode: nat): (b: Bytes)
    requires size < SIZE_END && mode < MODE_END
    ensures |b| == 148
  {
    Widths();
    NameField(name) + OctalField(mode, 8)
    + (OctalField(0, 8) + OctalField(0, 8)) + OctalField(size, 12) + OctalField(0, 12)
  }

  /** Type flag, empty link name, magic, version, and nothing in the remaining fields. */
  function TailFields(flag: Byte): (b: Bytes)
    ensures |b| == 356
  {
    [flag] + Zeros(100) + Ascii("ustar") + [0] + Ascii("00") + Zeros(247)
  }

  lemma {:induction false} SumBound(bytes: Bytes)
    ensures Sum(bytes) <= 255 * |bytes|
    decreases |bytes|
  {
    if bytes != [] {
      SumBound(bytes[..|bytes| - 1]);
    }
  }

  /** The sum of all bytes, the checksum field read as spaces. */
  function Checksum(head: Bytes, tail: Bytes): (n: nat)
    requires |head| == 148 && |tail| == 356
    ensures n < 262144
  {
    SumBound(head + Ascii("        ") + tail);
    Sum(head + Ascii("        ") + tail)
  }

  /** `header`. */
  function Header(name: Bytes, size: nat, flag: Byte, mode: nat): (b: Bytes)
    requires size < SIZE_END && mode < MODE_END
    ensures |b| == BLOCK
  {
    Widths();
    var head, tail := HeadFields(name, size, mode), TailFields(flag);
    head + (OctalField(Checksum(head, tail), 7) + Ascii(" ")) + tail
  }

  // ---- Writing a header in place ----

  /** A block with some bytes replaced from a position on. */
  function Patched(block: Bytes, at: nat, bytes: Bytes): Bytes
    requires at + |bytes| <= |block|
  {
    block[..at] + bytes + block[at + |bytes|..]
  }

  method CopyInto(block: array<Byte>, at: nat, bytes: Bytes)
    requires at + |bytes| <= block.Length
    modifies block
    ensures block[..] == Patched(old(block[..]), at, bytes)
  {
    for k := 0 to |bytes|
      invariant forall i :: 0 <= i < block.Length ==>
                  block[i] == if at <= i < at + k then bytes[i - at] else old(block[i])
    {
      block[at + k] := bytes[k];
    }
  }

  /** `write_octal` on the field of `len` bytes at `at`. */
  method WriteOctal(block: array<Byte>, at: nat, len: nat, value: nat)
    requires len >= 2 && at + len <= block.Length && value < Pow(8, len)
    modifies block
    ensures block[..] == Patched(old(block[..]), at, OctalField(value, len))
  {
    hide Patched, Pow;
    var text := OctalText(value, len - 1);
    OctalLength(value, len);
    PatchClosed(block[..], at, Ascii(text), len);
    CopyInto(block, at, Ascii(text));
    ghost var written := block[..];
    block[at + len - 1] := 0;
    assert block[..] == written[at + len - 1 := 0];
  }

  /** A closing NUL over what was written, or right after it. */
  lemma PatchClosed(block: Bytes, at: nat, text: Bytes, len: nat)
    requires at + len <= |block| && 1 <= len && len - 1 <= |text| <= len
    ensures |Patched(block, at, text)| == |block|
    ensures Patched(block, at, text)[at + len - 1 := 0] == Patched(block, at, text[..len - 1] + [0])
  {
  }

  method SumBlock(block: array<Byte>) returns (sum: nat)
    ensures sum == Sum(block[..])
  {
    sum := 0;
    for k := 0 to block.Length
      invariant sum == Sum(block[..k])
    {
      assert block[..k + 1][..k] == block[..k];
      sum := sum + block[k];
    }
    assert block[..block.Length] == block[..];
  }

  /** A field written right after those written before. */
  lemma PatchNext(done: Bytes, n: nat, bytes: Bytes)
    requires |bytes| <= n
    ensures Patched(done + Zeros(n), |done|, bytes) == done + bytes + Zeros(n - |bytes|)
  {
  }

  lemma ZerosSplit(done: Bytes, k: nat, n: nat)
    ensures done + Zeros(k + n) == done + Zeros(k) + Zeros(n)
  {
  }

  /** A field written over one of the same length. */
  lemma PatchOver(a: Bytes, b: Bytes, c: Bytes, bytes: Bytes)
    requires |bytes| == |b|
    ensures Patched(a + b + c, |a|, bytes) == a + bytes + c
  {
  }

  /** The fields before the checksum. */
  method WriteHead(block: array<Byte>, name: Bytes, size: nat, mode: nat)
    requires size < SIZE_END && mode < MODE_END
    requires block[..] == Zeros(BLOCK)
    modifies block
    ensures block[..] == HeadFields(name, size, mode) + Zeros(364)
  {
    hide OctalField, Patched, Zeros, Pow, NameField;
    Widths();
    ghost var named := NameField(name);
    NameIsWritten(name);
    CopyInto(block, 0, Cut(name));
    PatchNext(named, 412, OctalField(mode, 8));
    WriteOctal(block, 100, 8, mode);
    ghost var a := named + OctalField(mode, 8);
    PatchNext(a, 404, OctalField(0, 8));
    WriteOctal(block, 108, 8, 0);
    ghost var b := a + OctalField(0, 8);
    PatchNext(b, 396, OctalField(0, 8));
    WriteOctal(block, 116, 8, 0);
    ghost var c := b + OctalField(0, 8);
    PatchNext(c, 388, OctalField(size, 12));
    WriteOctal(block, 124, 12, size);
    ghost var d := c + OctalField(size, 12);
    PatchNext(d, 376, OctalField(0, 12));
    WriteOctal(block, 136, 12, 0);
    assert d + OctalField(0, 12) == HeadFields(name, size, mode) by {
      assert a + OctalField(0, 8) + OctalField(0, 8) == a + (OctalField(0, 8) + OctalField(0, 8));
    }
  }

  lemma NameIsWritten(name: Bytes)
    ensures Patched(Zeros(BLOCK), 0, Cut(name)) == NameField(name) + Zeros(412)
  {
  }

  /** Type flag, magic and version. */
  method WriteTail(block: array<Byte>, flag: Byte, ghost head: Bytes)
    requires |head| == 148 && block[..] == head + Zeros(364)
    modifies block
    ensures block[..] == head + Zeros(8) + TailFields(flag)
  {
    hide Patched, Zeros, Ascii;
    ZerosSplit(head, 8, 356);
    ghost var a := head + Zeros(8);
    PatchNext(a, 356, [flag]);
    CopyInto(block, 156, [flag]);
    ghost var b := a + [flag];
    ZerosSplit(b, 100, 255);
    PatchNext(b + Zeros(100), 255, Ascii("ustar"));
    CopyInto(block, 257, Ascii("ustar"));
    ghost var c := b + Zeros(100) + Ascii("ustar");
    ZerosSplit(c, 1, 249);
    PatchNext(c + Zeros(1), 249, Ascii("00"));
    CopyInto(block, 263, Ascii("00"));
    TailLayout(a, flag);
  }

  lemma TailLayout(a: Bytes, flag: Byte)
    ensures a + [flag] + Zeros(100) + Ascii("ustar") + Zeros(1) + Ascii("00") + Zeros(247) == a + TailFields(flag)
  {
  }

  /** `header`: the fields in place, then the checksum over the block with its own field as spaces. */
  method WriteHeader(name: Bytes, size: nat, flag: Byte, mode: nat) returns (block: array<Byte>)
    requires size < SIZE_END && mode < MODE_END
    ensures fresh(block) && block[..] == Header(name, size, flag, mode)
  {
    hide HeadFields, TailFields, Patched, Zeros, Ascii, OctalField, Pow, Sum;
    Widths();
    block := new Byte[BLOCK](i => 0);
    assert block[..] == Zeros(BLOCK) by { AllZeroIs(block[..]); }
    WriteHead(block, name, size, mode);
    ghost var head, tail := HeadFields(name, size, mode), TailFields(flag);
    WriteTail(block, flag, head);
    PatchOver(head, Zeros(8), tail, Ascii("        "));
    CopyInto(block, 148, Ascii("        "));
    var sum := SumBlock(block);
    assert sum == Checksum(head, tail);
    ghost var first := Ascii("        ")[..7];
    ghost var last := Ascii("        ")[7..];
    assert head + Ascii("        ") + tail == head + first + (last + tail) by {
      assert first + last == Ascii("        ");
    }
    PatchOver(head, first, last + tail, OctalField(sum, 7));
    WriteOctal(block, 148, 7, sum);
    ghost var check := OctalField(sum, 7);
    assert head + check + (last + tail) == (head + check) + last + tail;
    PatchOver(head + check, last, tail, Ascii(" "));
    CopyInto(block, 155, Ascii(" "));
    assert (head + check) + Ascii(" ") + tail == head + (check + Ascii(" ")) + tail;
  }

  lemma AllZeroIs(b: Bytes)
    requires |b| == BLOCK && forall i :: 0 <= i < |b| ==> b[i] == 0
    ensures b == Zeros(BLOCK)
  {
  }

  lemma HeadSlices(name: Bytes, size: nat, mode: nat)
    requires size < SIZE_END && mode < MODE_END
    ensures Pow(8, 12) == SIZE_END && Pow(8, 8) == MODE_END
    ensures var h := HeadFields(name, size, mode);
            && h[0..100] == NameField(name)
            && h[100..108] == OctalField(mode, 8) && h[124..136] == OctalField(size, 12)
  {
    Widths();
  }

  lemma TailSlices(flag: Byte)
    ensures TailFields(flag)[0] == flag && AllZero(TailFields(flag)[189..344])
  {
  }

  lemma SliceOfThree(a: Bytes, b: Bytes, c: Bytes)
    ensures forall i, j :: 0 <= i <= j <= |a| ==> (a + b + c)[i..j] == a[i..j]
    ensures forall i, j :: 0 <= i <= j <= |c| ==> (a + b + c)[|a| + |b| + i..|a| + |b| + j] == c[i..j]
    ensures forall i :: 0 <= i < |c| ==> (a + b + c)[|a| + |b| + i] == c[i]
  {
  }

  lemma HeaderSlices(name: Bytes, size: nat, flag: Byte, mode: nat)
    requires size < SIZE_END && mode < MODE_END
    ensures Pow(8, 12) == SIZE_END && Pow(8, 8) == MODE_END
    ensures var h := Header(name, size, flag, mode);
            && h[0..100] == NameField(name)
            && h[100..108] == OctalField(mode, 8) && h[124..136] == OctalField(size, 12)
            && h[156] == flag && AllZero(h[345..500])
  {
    Widths();
    var head, tail := HeadFields(name, size, mode), TailFields(flag);
    var check := OctalField(Checksum(head, tail), 7) + Ascii(" ");
    HeadSlices(name, size, mode);
    TailSlices(flag);
    SliceOfThree(head, check, tail);
    assert |head| + |check| == 156;
  }

  lemma ZeroField(slice: Bytes)
    requires slice != [] && AllZero(slice)
    ensures FieldText(slice) == Ok("")
  {
  }

  /** The name field reads as `path`, and the path check leaves it as it is. */
  predicate ReadsAsPath(name: Bytes, path: string)
  {
    0 !in name && Decode(Cut(name)) == Some(path) && Trim(path) == path && CheckPath(path) == Ok(path)
  }

  lemma NameReadsBack(name: Bytes, path: string)
    requires ReadsAsPath(name, path)
    ensures FieldText(NameField(name)) == Ok(path)
  {
    FieldTextOf(Cut(name), path, NameField(name));
  }

  /** The header of a regular file says what was written into it. */
  lemma HeaderReadsBack(name: Bytes, path: string, size: nat)
    requires ReadsAsPath(name, path) && size < MAX_SIZE
    ensures ParseHeader(Header(name, size, '0' as int, 0x1A4)) == Ok(Regular(path, size))
  {
    var h := Header(name, size, '0' as int, 0x1A4);
    HeaderSlices(name, size, '0' as int, 0x1A4);
    CheckPathIsExact(path);
    NameReadsBack(name, path);
    ZeroField(h[345..500]);
    Widths();
    OctalReadsBack(size, 12);
    OctalReadsBack(0x1A4, 8);
  }

  lemma HeaderIsNotZero(name: Bytes, size: nat)
    requires size < MAX_SIZE
    ensures !AllZero(Header(name, size, '0' as int, 0x1A4))
  {
    HeaderSlices(name, size, '0' as int, 0x1A4);
    assert Header(name, size, '0' as int, 0x1A4)[156] == '0' as int;
  }

  // ---- Names that are cut ----

  lemma DecodeOneMore(a: Bytes, b: Bytes)
    requires a != [] && DecodeOne(a).Some?
    ensures DecodeOne(a + b) == DecodeOne(a)
  {
  }

  lemma Associative(a: string, b: string, c: string)
    ensures a + (b + c) == a + b + c
  {
  }

  lemma {:induction false} DecodeConcat(a: Bytes, b: Bytes)
    requires Decode(a).Some? && Decode(a + b).Some?
    ensures Decode(b).Some? && Decode(a + b).value == Decode(a).value + Decode(b).value
    decreases |a|
  {
    if a == [] {
      assert a + b == b;
    } else {
      hide DecodeOne;
      DecodeOneMore(a, b);
      var n := DecodeOne(a).value.1;
      assert (a + b)[n..] == a[n..] + b;
      DecodeConcat(a[n..], b);
      Associative([DecodeOne(a).value.0], Decode(a[n..]).value, Decode(b).value);
    }
  }

  /** A name comes back as it was given if and only if it has at most a hundred bytes; of a longer one
      the first hundred come back. */
  lemma NameSurvivesIff(name: Bytes, path: string)
    requires ReadsAsPath(name, path)
    ensures Decode(name) == Some(path) <==> |name| <= 100
  {
    if |name| > 100 && Decode(name).Some? {
      assert name == name[..100] + name[100..];
      DecodeConcat(name[..100], name[100..]);
      assert Decode(name[100..]).value != "";
    }
  }

  // ---- Archives ----

  /** A file to write: its name and its content. */
  datatype Source = Source(name: Bytes, content: Bytes)

  type Files = seq<Source>

  predicate Writable(files: Files)
  {
    forall i :: 0 <= i < |files| ==> |files[i].content| < SIZE_END
  }

  /** One file in the archive: header, content, and NULs up to the next block. */
  function Unit(f: Source): (b: Bytes)
    requires |f.content| < SIZE_END
  {
    Header(f.name, |f.content|, '0' as int, 0x1A4) + f.content + Zeros((BLOCK - |f.content| % BLOCK) % BLOCK)
  }

  function Built(files: Files): Bytes
    requires Writable(files)
  {
    if files == [] then Zeros(2 * BLOCK) else Unit(files[0]) + Built(files[1..])
  }

  lemma BuiltFirst(files: Files)
    requires Writable(files) && files != []
    ensures Writable(files[1..]) && Built(files) == Unit(files[0]) + Built(files[1..])
  {
  }

  /** `build`. */
  method Build(files: Files) returns (out: Bytes)
    requires Writable(files)
    ensures out == Built(files)
  {
    out := [];
    var rest := files;
    assert [] + Built(files) == Built(files);
    while rest != []
      invariant Writable(rest) && Built(files) == out + Built(rest)
      decreases |rest|
    {
      BuiltFirst(rest);
      assert out + (Unit(rest[0]) + Built(rest[1..])) == out + Unit(rest[0]) + Built(rest[1..]);
      var header := WriteHeader(rest[0].name, |rest[0].content|, '0' as int, 0x1A4);
      out := out + (header[..] + rest[0].content + Zeros((BLOCK - |rest[0].content| % BLOCK) % BLOCK));
      rest := rest[1..];
    }
    out := out + Zeros(2 * BLOCK);
  }

  lemma {:induction false} PaddingFills(n: nat)
    ensures n + (BLOCK - n % BLOCK) % BLOCK == Padded(n)
    decreases n
  {
    if n > BLOCK {
      PaddingFills(n - BLOCK);
      OneBlockLess(n);
    } else {
      PaddingFillsBlock(n);
    }
  }

  lemma OneBlockLess(n: nat)
    requires n >= BLOCK
    ensures (n - BLOCK) % BLOCK == n % BLOCK
  {
  }

  lemma PaddingFillsBlock(n: nat)
    requires n <= BLOCK
    ensures n + (BLOCK - n % BLOCK) % BLOCK == Padded(n)
  {
  }

  lemma UnitLayout(f: Source)
    requires |f.content| < SIZE_END
    ensures var unit := Unit(f);
            && |unit| == BLOCK + Padded(|f.content|)
            && unit[..BLOCK] == Header(f.name, |f.content|, '0' as int, 0x1A4)
            && unit[BLOCK..BLOCK + |f.content|] == f.content
  {
    PaddingFills(|f.content|);
    var h, p := Header(f.name, |f.content|, '0' as int, 0x1A4), Zeros((BLOCK - |f.content| % BLOCK) % BLOCK);
    assert (h + f.content + p)[..BLOCK] == h;
    assert (h + f.content + p)[BLOCK..BLOCK + |f.content|] == f.content;
  }

  /** A unit as the reader takes it: a non-zero header naming the file and its size, then the content. */
  ghost predicate ReadsAs(read: HeaderReader, unit: Bytes, f: Entry)
  {
    && |unit| == BLOCK + Padded(|f.content|)
    && !AllZero(unit[..BLOCK]) && read(unit[..BLOCK]) == Ok(Regular(f.path, |f.content|))
    && unit[BLOCK..BLOCK + |f.content|] == f.content
  }

  /** The entry a file comes back as. */
  predicate ComesBackAs(f: Source, e: Entry)
  {
    ReadsAsPath(f.name, e.path) && f.content == e.content && |f.content| < MAX_SIZE
  }

  lemma UnitReadsBack(f: Source, e: Entry)
    requires ComesBackAs(f, e)
    ensures ReadsAs(ParseHeader, Unit(f), e)
  {
    UnitLayout(f);
    HeaderReadsBack(f.name, e.path, |f.content|);
    HeaderIsNotZero(f.name, |f.content|);
  }

  lemma TakeUnit(read: HeaderReader, prefix: Bytes, unit: Bytes, tail: Bytes, f: Entry, rest: seq<Entry>, total: nat,
                 limit: nat)
    requires ReadsAs(read, unit, f) && total + |f.content| <= limit
    requires FilesFrom(read, prefix + unit + tail, |prefix + unit|, total + |f.content|, limit) == Ok(rest)
    ensures FilesFrom(read, prefix + (unit + tail), |prefix|, total, limit) == Ok([f] + rest)
  {
    var archive, at := prefix + unit + tail, |prefix|;
    assert archive == prefix + (unit + tail);
    assert archive[at..at + BLOCK] == unit[..BLOCK];
    assert archive[at + BLOCK..at + BLOCK + |f.content|] == unit[BLOCK..BLOCK + |f.content|];
  }

  lemma EndLayout(prefix: Bytes)
    ensures Ends(prefix + Zeros(2 * BLOCK), |prefix|)
  {
  }

  predicate AllComeBack(files: Files, entries: seq<Entry>)
  {
    |files| == |entries| && forall i :: 0 <= i < |files| ==> ComesBackAs(files[i], entries[i])
  }

  lemma BackIsWritable(files: Files, entries: seq<Entry>)
    requires AllComeBack(files, entries)
    ensures Writable(files)
  {
    forall i | 0 <= i < |files| ensures |files[i].content| < SIZE_END {
      assert ComesBackAs(files[i], entries[i]);
    }
  }

  lemma Peel(files: Files, entries: seq<Entry>)
    requires AllComeBack(files, entries) && files != []
    ensures ComesBackAs(files[0], entries[0]) && AllComeBack(files[1..], entries[1..])
    ensures entries == [entries[0]] + entries[1..]
    ensures TotalSize(entries) == |entries[0].content| + TotalSize(entries[1..])
  {
    hide ComesBackAs;
  }

  lemma NothingReadsBack(prefix: Bytes, total: nat, limit: nat)
    ensures FilesFrom(ParseHeader, prefix + Built([]), |prefix|, total, limit) == Ok([])
  {
    EndLayout(prefix);
  }

  lemma {:induction false} FilesReadBack(prefix: Bytes, files: Files, entries: seq<Entry>, total: nat, limit: nat)
    requires AllComeBack(files, entries) && total + TotalSize(entries) <= limit
    ensures Writable(files) && FilesFrom(ParseHeader, prefix + Built(files), |prefix|, total, limit) == Ok(entries)
    decreases |files|
  {
    BackIsWritable(files, entries);
    if files == [] {
      NothingReadsBack(prefix, total, limit);
    } else {
      var e, rest, unit := entries[0], entries[1..], Unit(files[0]);
      hide *;
      Peel(files, entries);
      BuiltFirst(files);
      UnitReadsBack(files[0], e);
      FilesReadBack(prefix + unit, files[1..], rest, total + |e.content|, limit);
      TakeUnit(ParseHeader, prefix, unit, Built(files[1..]), e, rest, total, limit);
    }
  }

  /** Round trip: extracting a built archive returns the same contents in order, each under the first
      hundred bytes of its name. */
  lemma ExtractUndoesBuild(files: Files, entries: seq<Entry>, limit: nat)
    requires files != [] && AllComeBack(files, entries) && TotalSize(entries) <= limit
    ensures Writable(files) && Extracted(Built(files), limit) == Ok(entries)
  {
    FilesReadBack([], files, entries, 0, limit);
    assert [] + Built(files) == Built(files);
  }
}
