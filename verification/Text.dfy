/** Strings as the components use them: searching, splitting on a separator, and
    unsigned numerals in a base of at most ten. */
module Text {

  datatype Option<+T> = None | Some(value: T)

  datatype Result<+T, +E> = Ok(value: T) | Err(error: E)

  /** The first position of `c` in `s`, or `|s|` when it does not occur. */
  function Find(s: string, c: char): (i: nat)
    ensures i <= |s|
    ensures forall j :: 0 <= j < i ==> s[j] != c
    ensures i < |s| ==> s[i] == c
    ensures c in s <==> i < |s|
  {
    if s == "" || s[0] == c then 0 else 1 + Find(s[1..], c)
  }

  /** Two texts that agree up to and including their first separator split at the same place. */
  lemma FindUnique(s: string, c: char, i: nat)
    requires i < |s| && s[i] == c && forall j :: 0 <= j < i ==> s[j] != c
    ensures Find(s, c) == i
  {
  }

  /** `str::split` on one character: always at least one piece, empty pieces kept. */
  function SplitOn(s: string, c: char): (pieces: seq<string>)
    ensures |pieces| >= 1
    ensures forall p :: p in pieces ==> c !in p
    decreases |s|
  {
    var i := Find(s, c);
    if i == |s| then [s] else [s[..i]] + SplitOn(s[i + 1..], c)
  }

  /** The number of bytes `str::len` counts for one character. */
  function Utf8Width(c: char): nat
  {
    var n := c as int;
    if n < 0x80 then 1 else if n < 0x800 then 2 else if n < 0x10000 then 3 else 4
  }

  function Utf8Len(s: string): nat
  {
    if s == "" then 0 else Utf8Width(s[0]) + Utf8Len(s[1..])
  }

  predicate IsDigit(c: char, base: nat)
    requires base <= 10
  {
    '0' <= c && (c as int) < '0' as int + base
  }

  function Digit(d: nat): (c: char)
    requires d < 10
    ensures IsDigit(c, 10)
  {
    (('0' as int) + d) as char
  }

  predicate AllDigits(s: string, base: nat)
    requires base <= 10
  {
    forall i :: 0 <= i < |s| ==> IsDigit(s[i], base)
  }

  lemma Shrinks(n: nat, base: nat)
    requires 2 <= base <= n
    ensures 0 <= n / base < n && 0 <= n % base < base
  {
  }

  /** Plain numerals, as `{}` and `{:o}` print them. */
  function Numeral(n: nat, base: nat): (s: string)
    requires 2 <= base <= 10
    ensures |s| > 0 && AllDigits(s, base)
  {
    if n < base then [Digit(n)] else Shrinks(n, base); Numeral(n / base, base) + [Digit(n % base)]
  }

  function NumeralValue(s: string, base: nat): nat
    requires 2 <= base <= 10 && AllDigits(s, base)
  {
    if s == "" then 0
    else NumeralValue(s[..|s| - 1], base) * base + (s[|s| - 1] as int - '0' as int)
  }

  lemma DivMod(n: nat, base: nat)
    requires base > 0
    ensures n / base * base + n % base == n
  {
  }

  lemma NumeralValueSnoc(s: string, d: nat, base: nat)
    requires 2 <= base <= 10 && AllDigits(s, base) && d < base
    ensures AllDigits(s + [Digit(d)], base)
    ensures NumeralValue(s + [Digit(d)], base) == NumeralValue(s, base) * base + d
  {
  }

  lemma {:induction false} NumeralRoundTrip(n: nat, base: nat)
    requires 2 <= base <= 10
    ensures NumeralValue(Numeral(n, base), base) == n
    decreases n
  {
    if n < base {
      NumeralValueSnoc("", n, base);
      assert "" + [Digit(n)] == [Digit(n)];
    } else {
      NumeralRoundTrip(n / base, base);
      NumeralValueSnoc(Numeral(n / base, base), n % base, base);
      DivMod(n, base);
    }
  }

  /** `str::parse` for an unsigned integer of `bits` bits, and `from_str_radix`: an optional `+`,
      then at least one digit, and no overflow. */
  function ParseUnsigned(s: string, base: nat, limit: nat): Option<nat>
    requires 2 <= base <= 10
  {
    var t := if s != "" && s[0] == '+' then s[1..] else s;
    if t == "" || !AllDigits(t, base) || NumeralValue(t, base) >= limit then None
    else Some(NumeralValue(t, base))
  }

  const U64 := 0x1_0000_0000_0000_0000

  lemma ParseNumeral(n: nat, base: nat, limit: nat)
    requires 2 <= base <= 10 && n < limit
    ensures ParseUnsigned(Numeral(n, base), base, limit) == Some(n)
  {
    NumeralRoundTrip(n, base);
    assert IsDigit(Numeral(n, base)[0], base);
  }

  /** `char::is_whitespace`: the White_Space property of the Unicode character database. */
  predicate IsWhitespace(c: char)
  {
    var n := c as int;
    || 0x09 <= n <= 0x0D || n == 0x20 || n == 0x85 || n == 0xA0 || n == 0x1680
    || 0x2000 <= n <= 0x200A || n == 0x2028 || n == 0x2029 || n == 0x202F || n == 0x205F || n == 0x3000
  }

  function TrimStart(s: string): string
  {
    if s != "" && IsWhitespace(s[0]) then TrimStart(s[1..]) else s
  }

  function TrimEnd(s: string): string
  {
    if s != "" && IsWhitespace(s[|s| - 1]) then TrimEnd(s[..|s| - 1]) else s
  }

  function Trim(s: string): string
  {
    TrimEnd(TrimStart(s))
  }
}
