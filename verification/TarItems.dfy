/** The reader against archives of arbitrary items: directories, links and devices, special modes, names split
    into prefix and name, and archives that end too early. */
module TarItems {
  import opened Text
  import opened Tar
  import opened TarBounds
  import opened TarWrite

  /** One item of an archive. The writer leaves the prefix field empty; others fill it. */
  datatype Item = Item(name: Bytes, prefix: Bytes, content: Bytes, flag: Byte, mode: nat)

  predicate Fits(i: Item)
  {
    |i.prefix| <= 155 && |i.content| < MAX_SIZE && i.mode < 2097152
  }

  const DIRECTORY := '5' as int
  const REGULAR := '0' as int

  // ---- The header of an item ----

  function HeaderOf(i: Item): (h: Bytes)
    requires Fits(i)
    ensures |h| == BLOCK
  {
    Patched(Header(i.name, |i.content|, i.flag, i.mode), 345, i.prefix)
  }

  function PrefixField(prefix: Bytes): (b: Bytes)
    requires |prefix| <= 155
    ensures |b| == 155
  {
    prefix + Zeros(155 - |prefix|)
  }

  lemma PatchSlices(h: Bytes, prefix: Bytes)
    requires |h| == BLOCK && |prefix| <= 155 && AllZero(h[345..500])
    ensures var p := Patched(h, 345, prefix);
            && |p| == BLOCK && p[0..100] == h[0..100] && p[100..108] == h[100..108] && p[124..136] == h[124..136]
            && p[156] == h[156] && p[345..500] == PrefixField(prefix)
  {
    var p, field := Patched(h, 345, prefix), PrefixField(prefix);
    forall i | 0 <= i < 155 ensures p[345..500][i] == field[i] {
      if i >= |prefix| {
        assert p[345 + i] == h[345 + i] == h[345..500][i] == 0;
      }
    }
  }

  lemma ItemSlices(i: Item)
    requires Fits(i)
    ensures Pow(8, 12) == SIZE_END && Pow(8, 8) == MODE_END
    ensures var h := HeaderOf(i);
            && h[0..100] == NameField(i.name) && h[100..108] == OctalField(i.mode, 8)
            && h[124..136] == OctalField(|i.content|, 12) && h[156] == i.flag
            && h[345..500] == PrefixField(i.prefix)
  {
    hide OctalField, NameField, Header, PrefixField;
    HeaderSlices(i.name, |i.content|, i.flag, i.mode);
    PatchSlices(Header(i.name, |i.content|, i.flag, i.mode), i.prefix);
  }

  /** The name as the reader takes it, unless it is not a text. */
  function NameText(i: Item): Option<string>
  {
    match FieldText(NameField(i.name))
    case Ok(s) => Some(s)
    case Err(_) => None
  }

  /** The prefix as the reader takes it: nothing if it is not a text. */
  function PrefixText(i: Item): string
    requires Fits(i)
  {
    match FieldText(PrefixField(i.prefix))
    case Ok(s) => s
    case Err(_) => ""
  }

  /** Setuid, setgid and sticky. */
  predicate Special(mode: nat)
  {
    (mode / 512) % 8 != 0
  }

  /** What an item is to the reader. */
  datatype Sort = Skipped | Kept(path: string) | Bad(error: Error)

  function SortOf(i: Item): Sort
    requires Fits(i)
  {
    if NameText(i).None? then Bad(Malformed)
    else if i.flag == DIRECTORY then Skipped
    else if i.flag != REGULAR && i.flag != 0 then Bad(Rejected)
    else if Special(i.mode) then Bad(Rejected)
    else
      var path := if PrefixText(i) == "" then NameText(i).value else PrefixText(i) + "/" + NameText(i).value;
      if Ordinary(StripDotSlash(path)) then Kept(StripDotSlash(path)) else Bad(Rejected)
  }

  function MetaOf(i: Item): Result<Meta, Error>
    requires Fits(i)
  {
    match SortOf(i)
    case Skipped => Ok(Directory(|i.content|))
    case Kept(path) => Ok(Regular(path, |i.content|))
    case Bad(e) => Err(e)
  }

  lemma TextErrorIsMalformed(slice: Bytes)
    ensures FieldText(slice).Err? ==> FieldText(slice) == Err(Malformed)
  {
  }

  /** The reader finds in a header what the item is. */
  lemma HeaderIsRead(i: Item)
    requires Fits(i)
    ensures ParseHeader(HeaderOf(i)) == MetaOf(i)
  {
    hide OctalField, NameField, PrefixField, HeaderOf, FieldText, Ordinary, Octal, CheckPath, StripDotSlash;
    ItemSlices(i);
    Widths();
    OctalReadsBack(|i.content|, 12);
    OctalReadsBack(i.mode, 8);
    TextErrorIsMalformed(NameField(i.name));
    if NameText(i).Some? {
      var path := if PrefixText(i) == "" then NameText(i).value else PrefixText(i) + "/" + NameText(i).value;
      CheckPathIsExact(path);
    }
  }

  lemma HeaderIsNoEnd(i: Item)
    requires Fits(i)
    ensures !AllZero(HeaderOf(i))
  {
    ItemSlices(i);
    var h, text := HeaderOf(i), OctalText(|i.content|, 11);
    assert h[124] == h[124..136][0] == OctalField(|i.content|, 12)[0];
    Widths();
    OctalLength(|i.content|, 11);
    assert IsDigit(text[0], 8) && OctalField(|i.content|, 12)[0] == text[0] as int;
  }

  // ---- Archives ----

  function ItemUnit(i: Item): (b: Bytes)
    requires Fits(i)
  {
    HeaderOf(i) + i.content + Zeros((BLOCK - |i.content| % BLOCK) % BLOCK)
  }

  predicate AllFit(items: seq<Item>)
  {
    forall k :: 0 <= k < |items| ==> Fits(items[k])
  }

  function Archive(items: seq<Item>): Bytes
    requires AllFit(items)
  {
    if items == [] then Zeros(2 * BLOCK) else ItemUnit(items[0]) + Archive(items[1..])
  }

  /** What comes out of an archive, item by item: files in order, directories skipped, the first bad item or
      the one with which the limit is passed refused. */
  function Reading(items: seq<Item>, total: nat, limit: nat): Result<seq<Entry>, Error>
    requires AllFit(items)
  {
    if items == [] then Ok([])
    else match SortOf(items[0])
      case Bad(e) => Err(e)
      case Skipped => Reading(items[1..], total, limit)
      case Kept(path) =>
        if total + |items[0].content| > limit then Err(Rejected)
        else Cons(Entry(path, items[0].content), Reading(items[1..], total + |items[0].content|, limit))
  }

  lemma UnitOfItem(i: Item)
    requires Fits(i)
    ensures var unit := ItemUnit(i);
            && |unit| == BLOCK + Padded(|i.content|) && unit[..BLOCK] == HeaderOf(i)
            && unit[BLOCK..BLOCK + |i.content|] == i.content
  {
    hide HeaderOf;
    PaddingFills(|i.content|);
    var h, p := HeaderOf(i), Zeros((BLOCK - |i.content| % BLOCK) % BLOCK);
    assert (h + i.content + p)[..BLOCK] == h;
    assert (h + i.content + p)[BLOCK..BLOCK + |i.content|] == i.content;
  }

  /** What reading goes on to after a header: `skip` and `keep` are what comes of the rest. */
  function Onward(meta: Result<Meta, Error>, content: Bytes, total: nat, limit: nat,
                  skip: Result<seq<Entry>, Error>, keep: Result<seq<Entry>, Error>): Result<seq<Entry>, Error>
  {
    match meta
    case Err(e) => Err(e)
    case Ok(m) =>
      if m.Directory? then skip
      else if total + |content| > limit then Err(Rejected)
      else Cons(Entry(m.path, content), keep)
  }

  /** One unit read, whatever comes before and after it. */
  lemma UnitIsRead(read: HeaderReader, before: Bytes, unit: Bytes, after: Bytes, content: Bytes, total: nat, limit: nat)
    requires |unit| == BLOCK + Padded(|content|) && !AllZero(unit[..BLOCK])
    requires unit[BLOCK..BLOCK + |content|] == content
    requires read(unit[..BLOCK]).Ok? ==> read(unit[..BLOCK]).value.size == |content|
    ensures var archive, at := before + unit + after, |before|;
            FilesFrom(read, archive, at, total, limit) ==
              Onward(read(unit[..BLOCK]), content, total, limit,
                     FilesFrom(read, archive, |before + unit|, total, limit),
                     FilesFrom(read, archive, |before + unit|, total + |content|, limit))
  {
    var archive, at := before + unit + after, |before|;
    assert archive[at..at + BLOCK] == unit[..BLOCK];
    assert archive[at + BLOCK..at + BLOCK + |content|] == unit[BLOCK..BLOCK + |content|];
  }

  lemma ReadingFirst(items: seq<Item>, total: nat, limit: nat)
    requires AllFit(items) && items != []
    ensures Fits(items[0]) && AllFit(items[1..]) && Archive(items) == ItemUnit(items[0]) + Archive(items[1..])
    ensures Reading(items, total, limit) ==
              Onward(MetaOf(items[0]), items[0].content, total, limit, Reading(items[1..], total, limit),
                     Reading(items[1..], total + |items[0].content|, limit))
  {
    hide SortOf, ItemUnit, Fits;
  }

  lemma NothingIsRead(before: Bytes, total: nat, limit: nat)
    ensures FilesFrom(ParseHeader, before + Archive([]), |before|, total, limit) == Ok([]) == Reading([], total, limit)
  {
    EndLayout(before);
  }

  lemma ItemIsRead(before: Bytes, i: Item, after: Bytes, total: nat, limit: nat)
    requires Fits(i)
    ensures var archive, at := before + ItemUnit(i) + after, |before + ItemUnit(i)|;
            FilesFrom(ParseHeader, archive, |before|, total, limit) ==
              Onward(MetaOf(i), i.content, total, limit, FilesFrom(ParseHeader, archive, at, total, limit),
                     FilesFrom(ParseHeader, archive, at, total + |i.content|, limit))
  {
    hide FilesFrom, ItemUnit, HeaderOf, SortOf, ParseHeader, Fits, Onward, AllZero;
    UnitOfItem(i);
    HeaderIsRead(i);
    HeaderIsNoEnd(i);
    UnitIsRead(ParseHeader, before, ItemUnit(i), after, i.content, total, limit);
  }

  lemma {:induction false} ItemsAreRead(before: Bytes, items: seq<Item>, total: nat, limit: nat)
    requires AllFit(items)
    ensures FilesFrom(ParseHeader, before + Archive(items), |before|, total, limit) == Reading(items, total, limit)
    decreases |items|
  {
    hide *;
    if items == [] {
      NothingIsRead(before, total, limit);
    } else {
      ReadingFirst(items, total, limit);
      var i, rest := items[0], items[1..];
      var unit, after := ItemUnit(i), Archive(rest);
      assert before + (unit + after) == before + unit + after;
      ItemIsRead(before, i, after, total, limit);
      ItemsAreRead(before + unit, rest, total, limit);
      ItemsAreRead(before + unit, rest, total + |i.content|, limit);
    }
  }

  /** The reader on an archive of any items is that, and an archive without files is refused. */
  lemma ArchiveIsRead(items: seq<Item>, limit: nat)
    requires AllFit(items)
    ensures Extracted(Archive(items), limit) ==
              (if Reading(items, 0, limit) == Ok([]) then Err(Rejected) else Reading(items, 0, limit))
  {
    hide Archive, Reading, FilesFrom;
    ItemsAreRead([], items, 0, limit);
    assert [] + Archive(items) == Archive(items);
  }

  /** An archive that ends within the content of a file is malformed, whatever precedes it. */
  lemma CutShortIsMalformed(before: Bytes, i: Item, part: Bytes, total: nat, limit: nat)
    requires Fits(i) && SortOf(i).Kept? && |part| < |i.content| && total + |i.content| <= limit
    ensures FilesFrom(ParseHeader, before + HeaderOf(i) + part, |before|, total, limit) == Err(Malformed)
  {
    HeaderIsRead(i);
    HeaderIsNoEnd(i);
    hide HeaderOf, ParseHeader, SortOf;
    var archive, at := before + HeaderOf(i) + part, |before|;
    assert archive[at..at + BLOCK] == HeaderOf(i);
  }

  /** A number field that holds something else than octal digits makes the header malformed. */
  lemma NotOctalIsMalformed(s: string, n: nat)
    requires IsAscii(s) && s != "" && '\0' !in s && Trim(s) == s && TrimBlank(s) == s
    requires !AllDigits(if s[0] == '+' then s[1..] else s, 8)
    ensures Octal(Ascii(s) + Zeros(n)) == Err(Malformed)
  {
    DecodeAscii(s);
    forall b | b in Ascii(s) ensures b != 0 {
      var i :| 0 <= i < |s| && Ascii(s)[i] == b;
      assert s[i] in s;
    }
    FieldTextOf(Ascii(s), s, Ascii(s) + Zeros(n));
  }
}
