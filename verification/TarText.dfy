/** The text of a header field: UTF-8 decoding against the encoding it undoes. */
module TarText {
  import opened Text
  import opened Tar

  /** The UTF-8 encoding of one character (section 3 of RFC 3629). */
  function Encoded(c: char): Bytes
  {
    var n := c as int;
    if n < 0x80 then [n]
    else if n < 0x800 then [0xC0 + n / 64, 0x80 + n % 64]
    else if n < 0x10000 then [0xE0 + n / 4096, 0x80 + n / 64 % 64, 0x80 + n % 64]
    else [0xF0 + n / 262144, 0x80 + n / 4096 % 64, 0x80 + n / 64 % 64, 0x80 + n % 64]
  }

  function EncodedAll(s: string): Bytes
  {
    if s == "" then [] else Encoded(s[0]) + EncodedAll(s[1..])
  }

  lemma WidthIs(c: char)
    ensures |Encoded(c)| == Utf8Width(c)
  {
  }

  lemma Digits2(n: int, a: int, b: int)
    requires 0 <= b < 64
    ensures n == a * 64 + b <==> a == n / 64 && b == n % 64
  {
  }

  lemma Digits3(n: int, a: int, b: int, c: int)
    requires 0 <= b < 64 && 0 <= c < 64
    ensures n == a * 4096 + b * 64 + c <==> a == n / 4096 && b == n / 64 % 64 && c == n % 64
  {
    Digits2(n, a * 64 + b, c);
    Digits2(n / 64, a, b);
    assert n / 64 / 64 == n / 4096;
  }

  lemma Digits4(n: int, a: int, b: int, c: int, d: int)
    requires 0 <= b < 64 && 0 <= c < 64 && 0 <= d < 64
    ensures n == a * 262144 + b * 4096 + c * 64 + d <==>
              a == n / 262144 && b == n / 4096 % 64 && c == n / 64 % 64 && d == n % 64
  {
    Digits3(n, a * 64 + b, c, d);
    Digits2(n / 4096, a, b);
    assert n / 4096 / 64 == n / 262144;
  }

  /** One character is read if and only if the bytes start with its encoding. */
  lemma OneIsExact(bytes: Bytes, c: char, width: nat)
    requires bytes != []
    ensures DecodeOne(bytes) == Some((c, width)) <==> Encoded(c) <= bytes && |Encoded(c)| == width
  {
    if DecodeOne(bytes).Some? {
      ReadIsEncoded(bytes);
    }
    if Encoded(c) <= bytes {
      EncodedIsRead(bytes, c);
    }
  }

  lemma ReadIsEncoded(bytes: Bytes)
    requires bytes != [] && DecodeOne(bytes).Some?
    ensures var (c, width) := DecodeOne(bytes).value; Encoded(c) == bytes[..width]
  {
    var (c, width) := DecodeOne(bytes).value;
    var n := c as int;
    if width == 2 {
      Digits2(n, bytes[0] - 0xC0, bytes[1] - 0x80);
    } else if width == 3 {
      Digits3(n, bytes[0] - 0xE0, bytes[1] - 0x80, bytes[2] - 0x80);
    } else if width == 4 {
      Digits4(n, bytes[0] - 0xF0, bytes[1] - 0x80, bytes[2] - 0x80, bytes[3] - 0x80);
    }
  }

  lemma EncodedIsRead(bytes: Bytes, c: char)
    requires bytes != [] && Encoded(c) <= bytes
    ensures DecodeOne(bytes) == Some((c, |Encoded(c)|))
  {
    var n, e := c as int, Encoded(c);
    assert forall i :: 0 <= i < |e| ==> bytes[i] == e[i];
    if |e| == 2 {
      Digits2(n, n / 64, n % 64);
    } else if |e| == 3 {
      ThreeAreRead(bytes, c);
    } else if |e| == 4 {
      FourAreRead(bytes, c);
    }
  }

  lemma ThreeAreRead(bytes: Bytes, c: char)
    requires bytes != [] && Encoded(c) <= bytes && 0x800 <= c as int < 0x10000
    ensures DecodeOne(bytes) == Some((c, 3))
  {
    var n, e := c as int, Encoded(c);
    assert bytes[0] == e[0] && bytes[1] == e[1] && bytes[2] == e[2];
    Digits3(n, n / 4096, n / 64 % 64, n % 64);
  }

  lemma FourAreRead(bytes: Bytes, c: char)
    requires bytes != [] && Encoded(c) <= bytes && c as int >= 0x10000
    ensures DecodeOne(bytes) == Some((c, 4))
  {
    var n, e := c as int, Encoded(c);
    assert bytes[0] == e[0] && bytes[1] == e[1] && bytes[2] == e[2] && bytes[3] == e[3];
    Digits4(n, n / 262144, n / 4096 % 64, n / 64 % 64, n % 64);
  }

  /** `str::from_utf8` accepts exactly the encodings of texts, and returns the text. */
  lemma {:induction false} DecodeIsExact(bytes: Bytes, s: string)
    ensures Decode(bytes) == Some(s) <==> bytes == EncodedAll(s)
    decreases |bytes|
  {
    hide Encoded, DecodeOne;
    if bytes == [] {
      if s != "" {
        WidthIs(s[0]);
      }
    } else if s != "" {
      var c, w := s[0], |Encoded(s[0])|;
      WidthIs(c);
      OneIsExact(bytes, c, w);
      assert s == [c] + s[1..];
      if Encoded(c) <= bytes {
        DecodeIsExact(bytes[w..], s[1..]);
        assert bytes == Encoded(c) + bytes[w..];
      }
      if DecodeOne(bytes).Some? {
        OneIsExact(bytes, DecodeOne(bytes).value.0, DecodeOne(bytes).value.1);
      }
    }
  }

  // ---- Header fields ----

  /** The field holds the text: its encoding, and then the end of the field or a NUL. */
  predicate Holds(slice: Bytes, s: string)
  {
    var e := EncodedAll(s);
    e <= slice && 0 !in e && (|e| == |slice| || slice[|e|] == 0)
  }

  lemma ZeroUnique(slice: Bytes, e: Bytes)
    requires e <= slice && 0 !in e && (|e| == |slice| || slice[|e|] == 0)
    ensures FirstZero(slice) == |e| && slice[..FirstZero(slice)] == e
  {
    var i := FirstZero(slice);
    assert forall j :: 0 <= j < |e| ==> slice[j] == e[j];
    assert i == |e|;
  }

  /** `field` reads the text a field holds, blanks around it removed. */
  lemma FieldIsExact(slice: Bytes, text: string)
    ensures FieldText(slice) == Ok(text) <==> exists s :: Holds(slice, s) && Trim(s) == text
  {
    hide Trim, Decode, EncodedAll;
    var e := slice[..FirstZero(slice)];
    if FieldText(slice) == Ok(text) {
      var s := Decode(e).value;
      DecodeIsExact(e, s);
      assert Holds(slice, s) && Trim(s) == text;
    }
    if s :| Holds(slice, s) && Trim(s) == text {
      ZeroUnique(slice, EncodedAll(s));
      DecodeIsExact(e, s);
    }
  }

  lemma {:induction false} EncodedHasZero(s: string)
    requires 0 !in EncodedAll(s)
    ensures '\0' !in s
    decreases |s|
  {
    if s != "" {
      assert EncodedAll(s) == Encoded(s[0]) + EncodedAll(s[1..]);
      assert forall b :: b in Encoded(s[0]) ==> b in EncodedAll(s);
      assert forall b :: b in EncodedAll(s[1..]) ==> b in EncodedAll(s);
      EncodedHasZero(s[1..]);
      assert Encoded('\0') == [0];
      assert s == [s[0]] + s[1..];
    }
  }

  lemma {:induction false} TrimEndLeaves(s: string)
    ensures var t := TrimEnd(s); t <= s && (t != "" ==> !IsWhitespace(t[|t| - 1]))
    decreases |s|
  {
    if s != "" && IsWhitespace(s[|s| - 1]) {
      TrimEndLeaves(s[..|s| - 1]);
    }
  }

  lemma {:induction false} TrimStartLeaves(s: string)
    ensures var t := TrimStart(s); (forall c :: c in t ==> c in s) && (t != "" ==> !IsWhitespace(t[0]))
    decreases |s|
  {
    if s != "" && IsWhitespace(s[0]) {
      TrimStartLeaves(s[1..]);
    }
  }

  /** Nothing is left for the second trimming to remove. */
  lemma TrimmedTwice(s: string)
    requires '\0' !in s
    ensures TrimBlank(Trim(s)) == Trim(s)
  {
    TrimStartLeaves(s);
    TrimEndLeaves(TrimStart(s));
    var t := Trim(s);
    assert t != "" ==> t[0] in t && t[|t| - 1] in t;
  }

  /** `octal` reads a blank field as zero and one that holds an octal number of 64 bits as that number. */
  lemma OctalIsExact(slice: Bytes, value: nat)
    ensures Octal(slice) == Ok(value) <==> exists s :: Holds(slice, s) && Reads(Trim(s), value)
  {
    hide Trim, FieldText, ParseUnsigned, TrimBlank, EncodedAll;
    if Octal(slice) == Ok(value) {
      var text := FieldText(slice).value;
      FieldIsExact(slice, text);
      var s :| Holds(slice, s) && Trim(s) == text;
      EncodedHasZero(s);
      TrimmedTwice(s);
      assert Reads(Trim(s), value);
    }
    if s :| Holds(slice, s) && Reads(Trim(s), value) {
      FieldIsExact(slice, Trim(s));
      EncodedHasZero(s);
      TrimmedTwice(s);
    }
  }

  predicate Reads(text: string, value: nat)
  {
    if text == "" then value == 0 else ParseUnsigned(text, 8, U64) == Some(value)
  }

  // ---- Paths ----

  function DotSlashes(k: nat): string
  {
    if k == 0 then "" else "./" + DotSlashes(k - 1)
  }

  lemma {:induction false} StripsOff(k: nat, rest: string)
    requires !("./" <= rest)
    ensures StripDotSlash(DotSlashes(k) + rest) == rest
    decreases k
  {
    var raw := DotSlashes(k) + rest;
    if k == 0 {
      assert raw == rest;
      assert |rest| < 2 || rest[..2] != "./";
    } else {
      assert raw[2..] == DotSlashes(k - 1) + rest;
      StripsOff(k - 1, rest);
    }
  }

  lemma {:induction false} StrippedOff(raw: string) returns (k: nat)
    ensures raw == DotSlashes(k) + StripDotSlash(raw)
    decreases |raw|
  {
    if |raw| >= 2 && raw[0] == '.' && raw[1] == '/' {
      var j := StrippedOff(raw[2..]);
      k := j + 1;
      assert raw == "./" + raw[2..];
      assert "./" + (DotSlashes(j) + StripDotSlash(raw[2..])) == DotSlashes(k) + StripDotSlash(raw[2..]);
    } else {
      k := 0;
      assert "" + raw == raw;
    }
  }

  /** An accepted path is an ordinary one behind any number of `./`, and nothing else is accepted. */
  lemma PathIsExact(raw: string, path: string)
    ensures CheckPath(raw) == Ok(path) <==> Ordinary(path) && exists k: nat :: raw == DotSlashes(k) + path
  {
    hide Ordinary, DotSlashes;
    CheckPathIsExact(raw);
    if CheckPath(raw) == Ok(path) {
      var k := StrippedOff(raw);
    }
    if Ordinary(path) {
      if "./" <= path {
        DotSlashIsNot(path);
      }
      if k: nat :| raw == DotSlashes(k) + path {
        StripsOff(k, path);
      }
    }
  }

  lemma DotSlashIsNot(path: string)
    requires "./" <= path
    ensures !Ordinary(path)
  {
    assert path[0] == '.' && path[1] == '/';
    FindUnique(path, '/', 1);
    assert path[..1] == ".";
    assert !OrdinarySegment(SplitOn(path, '/')[0]);
  }
}
