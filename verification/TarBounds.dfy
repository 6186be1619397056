/** The reader's arithmetic in 64-bit machine integers: no sum of it overflows. */
module TarBounds {
  import opened Text
  import opened Tar

  function Pow(base: nat, k: nat): nat
  {
    if k == 0 then 1 else base * Pow(base, k - 1)
  }

  lemma Times(base: nat, p: nat)
    requires base >= 1
    ensures base * p >= p
  {
  }

  lemma {:induction false} PowGrows(base: nat, j: nat, k: nat)
    requires base >= 1 && j <= k
    ensures Pow(base, j) <= Pow(base, k)
    decreases k
  {
    if j < k {
      PowGrows(base, j, k - 1);
      Times(base, Pow(base, k - 1));
    }
  }

  // ---- A size field holds a small number ----

  lemma {:induction false} DecodeIsNotLonger(bytes: Bytes)
    requires Decode(bytes).Some?
    ensures |Decode(bytes).value| <= |bytes|
    decreases |bytes|
  {
    if bytes != [] {
      var n := DecodeOne(bytes).value.1;
      DecodeIsNotLonger(bytes[n..]);
    }
  }

  lemma {:induction false} TrimStartIsNotLonger(s: string)
    ensures |TrimStart(s)| <= |s|
    decreases |s|
  {
    if s != "" && IsWhitespace(s[0]) {
      TrimStartIsNotLonger(s[1..]);
    }
  }

  lemma {:induction false} TrimEndIsNotLonger(s: string)
    ensures |TrimEnd(s)| <= |s|
    decreases |s|
  {
    if s != "" && IsWhitespace(s[|s| - 1]) {
      TrimEndIsNotLonger(s[..|s| - 1]);
    }
  }

  lemma {:induction false} TrimBlankIsNotLonger(s: string)
    ensures |TrimBlank(s)| <= |s|
    decreases |s|
  {
    if s != "" {
      TrimBlankIsNotLonger(s[1..]);
      TrimBlankIsNotLonger(s[..|s| - 1]);
    }
  }

  lemma TrimIsNotLonger(s: string)
    ensures |Trim(s)| <= |s| && |TrimBlank(s)| <= |s|
  {
    TrimStartIsNotLonger(s);
    TrimEndIsNotLonger(TrimStart(s));
    TrimBlankIsNotLonger(s);
  }

  lemma {:induction false} ValueIsSmall(s: string, base: nat)
    requires 2 <= base <= 10 && AllDigits(s, base)
    ensures NumeralValue(s, base) < Pow(base, |s|)
    decreases |s|
  {
    if s != "" {
      ValueIsSmall(s[..|s| - 1], base);
      OneMore(NumeralValue(s[..|s| - 1], base), Pow(base, |s| - 1), base, s[|s| - 1] as int - '0' as int);
    }
  }

  lemma OneMore(n: nat, p: nat, base: nat, d: int)
    requires n < p && 0 <= d < base
    ensures n * base + d < base * p
  {
    assert (n + 1) * base <= p * base;
  }

  /** A field of `k` bytes holds a number below 8 to the k. */
  lemma OctalIsSmall(slice: Bytes)
    requires Octal(slice).Ok?
    ensures Octal(slice).value < Pow(8, |slice|)
  {
    PowGrows(8, 0, |slice|);
    var bytes := slice[..FirstZero(slice)];
    DecodeIsNotLonger(bytes);
    TrimIsNotLonger(Decode(bytes).value);
    TrimIsNotLonger(Trim(Decode(bytes).value));
    var digits := TrimBlank(FieldText(slice).value);
    if digits != "" {
      var t := if digits[0] == '+' then digits[1..] else digits;
      ValueIsSmall(t, 8);
      PowGrows(8, |t|, |slice|);
    }
  }

  const SIZE_END := 0x10_0000_0000

  lemma SizeIsSmall(h: Bytes)
    requires ParseHeader(h).Ok?
    ensures ParseHeader(h).value.size < SIZE_END
  {
    OctalIsSmall(h[124..136]);
    assert Pow(8, 4) == 4096;
    assert Pow(8, 8) == 16777216;
    assert Pow(8, 12) == SIZE_END;
  }

  // ---- No sum overflows ----

  /** Every sum of the loop of `extract` from here on is below 2 to the 64. */
  ghost predicate Fits(read: HeaderReader, archive: Bytes, offset: nat, total: nat, limit: nat)
    decreases |archive| - offset
  {
    && offset + BLOCK < U64
    && (!Ends(archive, offset) ==>
          match read(archive[offset..offset + BLOCK])
          case Err(_) => true
          case Ok(Directory(size)) =>
            var next := offset + BLOCK + Padded(size);
            next < U64 && Fits(read, archive, next, total, limit)
          case Ok(Regular(_, size)) =>
            && total + size < U64
            && (total + size <= limit ==> offset + BLOCK + size < U64)
            && (total + size <= limit && offset + BLOCK + size <= |archive| ==>
                  var next := offset + BLOCK + Padded(size);
                  next < U64 && Fits(read, archive, next, total + size, limit)))
  }

  ghost predicate ReadsSmall(read: HeaderReader)
  {
    forall h :: read(h).Ok? ==> read(h).value.size < SIZE_END
  }

  lemma {:induction false} LoopFits(read: HeaderReader, archive: Bytes, offset: nat, total: nat, limit: nat)
    requires ReadsSmall(read) && |archive| < U64 / 2
    requires total <= offset < |archive| + 2 * SIZE_END && (offset <= |archive| || Ends(archive, offset))
    ensures Fits(read, archive, offset, total, limit)
    decreases |archive| - offset
  {
    if !Ends(archive, offset) && read(archive[offset..offset + BLOCK]).Ok? {
      var meta := read(archive[offset..offset + BLOCK]).value;
      var next := offset + BLOCK + Padded(meta.size);
      if meta.Directory? {
        LoopFits(read, archive, next, total, limit);
      } else if total + meta.size <= limit && offset + BLOCK + meta.size <= |archive| {
        LoopFits(read, archive, next, total + meta.size, limit);
      }
    }
  }

  /** Reading an archive that a program can hold, of fewer than 2 to the 63 bytes, overflows nowhere,
      whatever sizes its headers claim: the unbounded integers of `Extract` are the machine's. */
  lemma ExtractFits(archive: Bytes, limit: nat)
    requires |archive| < U64 / 2
    ensures Fits(ParseHeader, archive, 0, 0, limit)
  {
    forall h | ParseHeader(h).Ok? ensures ParseHeader(h).value.size < SIZE_END {
      SizeIsSmall(h);
    }
    hide ParseHeader;
    LoopFits(ParseHeader, archive, 0, 0, limit);
  }
}
