/** The narrow tar reader: regular files with ordinary relative names, everything else refused.
    Block layout as in "ustar Interchange Format" of the pax utility in IEEE Std 1003.1. */
module Tar {
  import opened Text

  type Byte = b: int | 0 <= b < 256

  type Bytes = seq<Byte>

  const BLOCK := 512

  datatype Error = Rejected | Malformed

  /** One file from a bundle. */
  datatype Entry = Entry(path: string, content: Bytes)

  // ---- Header fields ----

  predicate Tail(b: int)
  {
    0x80 <= b <= 0xBF
  }

  /** The first character of a UTF-8 text and its width in bytes; none if the bytes are not UTF-8. */
  function DecodeOne(bytes: Bytes): (r: Option<(char, nat)>)
    requires bytes != []
    ensures r.Some? ==> 1 <= r.value.1 <= |bytes|
  {
    var b0: int := bytes[0];
    var b1: int := if |bytes| > 1 then bytes[1] else 0;
    var b2: int := if |bytes| > 2 then bytes[2] else 0;
    var b3: int := if |bytes| > 3 then bytes[3] else 0;
    if b0 < 0x80 then Some((b0 as char, 1))
    else if 0xC2 <= b0 <= 0xDF && Tail(b1) then
      Some((((b0 - 0xC0) * 64 + (b1 - 0x80)) as char, 2))
    else if 0xE0 <= b0 <= 0xEF && Tail(b1) && Tail(b2)
            && (b0 == 0xE0 ==> b1 >= 0xA0) && (b0 == 0xED ==> b1 <= 0x9F) then
      Some((((b0 - 0xE0) * 4096 + (b1 - 0x80) * 64 + (b2 - 0x80)) as char, 3))
    else if 0xF0 <= b0 <= 0xF4 && Tail(b1) && Tail(b2) && Tail(b3)
            && (b0 == 0xF0 ==> b1 >= 0x90) && (b0 == 0xF4 ==> b1 <= 0x8F) then
      Some((((b0 - 0xF0) * 262144 + (b1 - 0x80) * 4096 + (b2 - 0x80) * 64 + (b3 - 0x80)) as char, 4))
    else None
  }

  /** `str::from_utf8`. */
  function Decode(bytes: Bytes): Option<string>
    decreases |bytes|
  {
    if bytes == [] then Some("")
    else match DecodeOne(bytes)
      case None => None
      case Some((c, n)) =>
        match Decode(bytes[n..])
        case None => None
        case Some(rest) => Some([c] + rest)
  }

  /** The position of the first NUL, or the length. */
  function FirstZero(bytes: Bytes): (i: nat)
    ensures i <= |bytes| && (i < |bytes| ==> bytes[i] == 0)
    ensures forall j :: 0 <= j < i ==> bytes[j] != 0
  {
    if bytes == [] || bytes[0] == 0 then 0 else 1 + FirstZero(bytes[1..])
  }

  /** `field`: the text before the first NUL, trimmed. */
  function FieldText(slice: Bytes): Result<string, Error>
  {
    match Decode(slice[..FirstZero(slice)])
    case None => Err(Malformed)
    case Some(s) => Ok(Trim(s))
  }

  function TrimBlank(s: string): string
    decreases |s|
  {
    if s != "" && (s[0] == ' ' || s[0] == '\0') then TrimBlank(s[1..])
    else if s != "" && (s[|s| - 1] == ' ' || s[|s| - 1] == '\0') then TrimBlank(s[..|s| - 1])
    else s
  }

  /** `octal`: an empty field is zero. */
  function Octal(slice: Bytes): Result<nat, Error>
  {
    match FieldText(slice)
    case Err(e) => Err(e)
    case Ok(text) =>
      var digits := TrimBlank(text);
      if digits == "" then Ok(0)
      else match ParseUnsigned(digits, 8, U64)
        case None => Err(Malformed)
        case Some(n) => Ok(n)
  }

  // ---- Paths ----

  /** `trim_start_matches("./")`. */
  function StripDotSlash(raw: string): string
  {
    if |raw| >= 2 && raw[0] == '.' && raw[1] == '/' then StripDotSlash(raw[2..]) else raw
  }

  predicate OrdinarySegment(s: string)
  {
    s != "" && s != "." && s != ".."
  }

  /** A relative path of ordinary segments. */
  predicate Ordinary(path: string)
  {
    && '\\' !in path && '\0' !in path
    && forall i :: 0 <= i < |SplitOn(path, '/')| ==> OrdinarySegment(SplitOn(path, '/')[i])
  }

  /** `check_path`. */
  function CheckPath(raw: string): Result<string, Error>
  {
    var path := StripDotSlash(raw);
    if path == "" then Err(Rejected)
    else if path[0] == '/' then Err(Rejected)
    else if '\\' in path || '\0' in path then Err(Rejected)
    else if exists i :: 0 <= i < |SplitOn(path, '/')| && !OrdinarySegment(SplitOn(path, '/')[i]) then Err(Rejected)
    else Ok(path)
  }

  /** A path is accepted exactly when, leading `./` aside, it is ordinary. */
  lemma CheckPathIsExact(raw: string)
    ensures CheckPath(raw) == if Ordinary(StripDotSlash(raw)) then Ok(StripDotSlash(raw)) else Err(Rejected)
  {
    var path := StripDotSlash(raw);
    if path == "" {
      assert !OrdinarySegment(SplitOn(path, '/')[0]);
    } else if path[0] == '/' {
      assert Find(path, '/') == 0 && SplitOn(path, '/')[0] == "";
      assert !OrdinarySegment(SplitOn(path, '/')[0]);
    }
  }

  /** Where a path leads when its segments are followed one by one from a directory. */
  function Walk(at: seq<string>, segments: seq<string>): seq<string>
    decreases |segments|
  {
    if segments == [] then at
    else if segments[0] == "" || segments[0] == "." then Walk(at, segments[1..])
    else if segments[0] == ".." then Walk(if at == [] then at else at[..|at| - 1], segments[1..])
    else Walk(at + [segments[0]], segments[1..])
  }

  lemma {:induction false} WalkStaysBelow(at: seq<string>, segments: seq<string>)
    requires forall i :: 0 <= i < |segments| ==> OrdinarySegment(segments[i])
    ensures Walk(at, segments) == at + segments
    decreases |segments|
  {
    if segments != [] {
      WalkStaysBelow(at + [segments[0]], segments[1..]);
      assert at + [segments[0]] + segments[1..] == at + segments;
    }
  }

  // ---- Extraction ----

  datatype Meta = Directory(size: nat) | Regular(path: string, size: nat)

  /** One header block, its fields checked in the order the reader checks them. */
  function ParseHeader(h: Bytes): Result<Meta, Error>
  {
    if |h| != BLOCK then Err(Malformed) else
    match FieldText(h[0..100])
    case Err(e) => Err(e)
    case Ok(name) =>
      var prefix := match FieldText(h[345..500]) case Ok(p) => p case Err(_) => "";
      match Octal(h[124..136])
      case Err(e) => Err(e)
      case Ok(size) =>
        if h[156] == '5' as int then Ok(Directory(size))
        else if h[156] != '0' as int && h[156] != 0 then Err(Rejected)
        else match Octal(h[100..108])
          case Err(e) => Err(e)
          case Ok(mode) =>
            if (mode / 512) % 8 != 0 then Err(Rejected)
            else match CheckPath(if prefix == "" then name else prefix + "/" + name)
              case Err(e) => Err(e)
              case Ok(path) => Ok(Regular(path, size))
  }

  /** A size rounded up to whole blocks. */
  function Padded(size: nat): (n: nat)
    ensures size <= n < size + BLOCK
  {
    if size == 0 then 0 else if size <= BLOCK then BLOCK else BLOCK + Padded(size - BLOCK)
  }

  /** Which is `size.div_ceil(BLOCK) * BLOCK`. */
  lemma {:induction false} PaddedIsDivCeil(size: nat)
    ensures Padded(size) == (size + BLOCK - 1) / BLOCK * BLOCK
    decreases size
  {
    if size > BLOCK {
      PaddedIsDivCeil(size - BLOCK);
      assert (size + BLOCK - 1) / BLOCK == (size - BLOCK + BLOCK - 1) / BLOCK + 1;
    }
  }

  predicate AllZero(bytes: Bytes)
  {
    forall i :: 0 <= i < |bytes| ==> bytes[i] == 0
  }

  /** No further header: the archive ends, or a zero block ends it. */
  predicate Ends(archive: Bytes, offset: nat)
  {
    offset + BLOCK > |archive| || AllZero(archive[offset..offset + BLOCK])
  }

  function Cons(e: Entry, r: Result<seq<Entry>, Error>): Result<seq<Entry>, Error>
  {
    if r.Ok? then Ok([e] + r.value) else r
  }

  /** What one header block says, or why it is refused. */
  type HeaderReader = Bytes -> Result<Meta, Error>

  /** The files from `offset` on, when files of `total` bytes were read before. */
  function FilesFrom(read: HeaderReader, archive: Bytes, offset: nat, total: nat, limit: nat): Result<seq<Entry>, Error>
    decreases |archive| - offset
  {
    if Ends(archive, offset) then Ok([])
    else match read(archive[offset..offset + BLOCK])
      case Err(e) => Err(e)
      case Ok(Directory(size)) => FilesFrom(read, archive, offset + BLOCK + Padded(size), total, limit)
      case Ok(Regular(path, size)) =>
        if total + size > limit then Err(Rejected)
        else if offset + BLOCK + size > |archive| then Err(Malformed)
        else Cons(Entry(path, archive[offset + BLOCK..offset + BLOCK + size]),
                  FilesFrom(read, archive, offset + BLOCK + Padded(size), total + size, limit))
  }

  function NonEmpty(r: Result<seq<Entry>, Error>): Result<seq<Entry>, Error>
  {
    if r == Ok([]) then Err(Rejected) else r
  }

  /** What `extract` makes of an archive. */
  function Extracted(archive: Bytes, limit: nat): Result<seq<Entry>, Error>
  {
    NonEmpty(FilesFrom(ParseHeader, archive, 0, 0, limit))
  }

  function Append(entries: seq<Entry>, r: Result<seq<Entry>, Error>): Result<seq<Entry>, Error>
  {
    if r.Ok? then Ok(entries + r.value) else r
  }

  lemma AppendNothing(r: Result<seq<Entry>, Error>)
    ensures Append([], r) == r
  {
    if r.Ok? {
      assert [] + r.value == r.value;
    }
  }

  lemma AppendCons(entries: seq<Entry>, e: Entry, r: Result<seq<Entry>, Error>)
    ensures Append(entries, Cons(e, r)) == Append(entries + [e], r)
  {
    if r.Ok? {
      assert entries + ([e] + r.value) == entries + [e] + r.value;
    }
  }

  datatype Step = Fail(error: Error) | Skip(next: nat) | Take(entry: Entry, next: nat)

  /** The body of the loop of `extract`, for a header that does not end the archive. */
  method ReadOne(read: HeaderReader, archive: Bytes, offset: nat, total: nat, limit: nat) returns (step: Step)
    requires !Ends(archive, offset)
    ensures var here := FilesFrom(read, archive, offset, total, limit);
            match step
            case Fail(e) => here == Err(e)
            case Skip(next) => next > offset && here == FilesFrom(read, archive, next, total, limit)
            case Take(entry, next) =>
              next > offset && here == Cons(entry, FilesFrom(read, archive, next, total + |entry.content|, limit))
  {
    var header := archive[offset..offset + BLOCK];
    var data := offset + BLOCK;
    match read(header) {
      case Err(e) => return Fail(e);
      case Ok(Directory(size)) => return Skip(data + Padded(size));
      case Ok(Regular(path, size)) =>
        if total + size > limit {
          return Fail(Rejected);
        }
        if data + size > |archive| {
          return Fail(Malformed);
        }
        return Take(Entry(path, archive[data..data + size]), data + Padded(size));
    }
  }

  /** The loop of `extract`. */
  method ReadFiles(read: HeaderReader, archive: Bytes, limit: nat) returns (r: Result<seq<Entry>, Error>)
    ensures r == FilesFrom(read, archive, 0, 0, limit)
  {
    var entries: seq<Entry>, offset: nat, total: nat := [], 0, 0;
    AppendNothing(FilesFrom(read, archive, 0, 0, limit));
    while !Ends(archive, offset)
      invariant FilesFrom(read, archive, 0, 0, limit) == Append(entries, FilesFrom(read, archive, offset, total, limit))
      decreases |archive| - offset
    {
      var step := ReadOne(read, archive, offset, total, limit);
      match step {
        case Fail(e) => return Err(e);
        case Skip(next) => offset := next;
        case Take(entry, next) =>
          AppendCons(entries, entry, FilesFrom(read, archive, next, total + |entry.content|, limit));
          entries, total, offset := entries + [entry], total + |entry.content|, next;
      }
    }
    assert entries + [] == entries;
    r := Ok(entries);
  }

  /** `extract`. */
  method Extract(archive: Bytes, limit: nat) returns (r: Result<seq<Entry>, Error>)
    ensures r == Extracted(archive, limit)
  {
    r := ReadFiles(ParseHeader, archive, limit);
    r := NonEmpty(r);
  }

  // ---- What comes out ----

  function TotalSize(entries: seq<Entry>): nat
  {
    if entries == [] then 0 else |entries[0].content| + TotalSize(entries[1..])
  }

  /** Each content is the slice of the archive starting at the given position, and the slices lie
      one after another, at or after `from`. */
  ghost predicate InOrder(archive: Bytes, entries: seq<Entry>, starts: seq<nat>, from: nat)
  {
    && |starts| == |entries|
    && (entries != [] ==>
          var end := starts[0] + |entries[0].content|;
          && from <= starts[0] && end <= |archive|
          && entries[0].content == archive[starts[0]..end]
          && InOrder(archive, entries[1..], starts[1..], end))
  }

  lemma HeaderPathIsOrdinary(h: Bytes)
    requires ParseHeader(h).Ok? && ParseHeader(h).value.Regular?
    ensures Ordinary(ParseHeader(h).value.path)
  {
  }

  /** Every path a header reader accepts is a good one. */
  ghost predicate ReadsGood(read: HeaderReader, good: string -> bool)
  {
    forall h :: read(h).Ok? && read(h).value.Regular? ==> good(read(h).value.path)
  }

  lemma InOrderCons(archive: Bytes, e: Entry, entries: seq<Entry>, start: nat, starts: seq<nat>, from: nat, next: nat)
    requires InOrder(archive, entries, starts, next)
    requires from <= start && start + |e.content| <= next && start + |e.content| <= |archive|
    requires e.content == archive[start..start + |e.content|]
    ensures InOrder(archive, [e] + entries, [start] + starts, from)
    ensures TotalSize([e] + entries) == |e.content| + TotalSize(entries)
  {
  }

  lemma {:induction false} FilesFromAreSafe(read: HeaderReader, good: string -> bool, archive: Bytes, offset: nat,
                                            total: nat, limit: nat)
    returns (starts: seq<nat>)
    requires ReadsGood(read, good) && total <= limit && FilesFrom(read, archive, offset, total, limit).Ok?
    ensures var entries := FilesFrom(read, archive, offset, total, limit).value;
            && InOrder(archive, entries, starts, offset) && total + TotalSize(entries) <= limit
            && forall i :: 0 <= i < |entries| ==> good(entries[i].path)
    decreases |archive| - offset
  {
    hide AllZero, InOrder;
    if Ends(archive, offset) {
      starts := [];
      NoneInOrder(archive, offset);
    } else {
      var meta := read(archive[offset..offset + BLOCK]).value;
      var next := offset + BLOCK + Padded(meta.size);
      if meta.Directory? {
        starts := FilesFromAreSafe(read, good, archive, next, total, limit);
        InOrderFrom(archive, FilesFrom(read, archive, next, total, limit).value, starts, offset, next);
      } else {
        starts := FilesFromAreSafe(read, good, archive, next, total + meta.size, limit);
        var tail := FilesFrom(read, archive, next, total + meta.size, limit).value;
        var e := Entry(meta.path, archive[offset + BLOCK..offset + BLOCK + meta.size]);
        InOrderCons(archive, e, tail, offset + BLOCK, starts, offset, next);
        starts := [offset + BLOCK] + starts;
        assert FilesFrom(read, archive, offset, total, limit).value == [e] + tail;
      }
    }
  }

  lemma InOrderFrom(archive: Bytes, entries: seq<Entry>, starts: seq<nat>, offset: nat, next: nat)
    requires InOrder(archive, entries, starts, next) && offset <= next
    ensures InOrder(archive, entries, starts, offset)
  {
  }

  lemma NoneInOrder(archive: Bytes, offset: nat)
    ensures InOrder(archive, [], [], offset)
  {
  }

  /** On success the contents are disjoint slices of the archive in archive order, together within
      the limit, at least one, and every path is relative and stays below the directory it is
      unpacked into. */
  lemma ExtractIsSafe(archive: Bytes, limit: nat, staging: seq<string>) returns (starts: seq<nat>)
    requires Extracted(archive, limit).Ok?
    ensures var entries := Extracted(archive, limit).value;
            && entries != [] && InOrder(archive, entries, starts, 0) && TotalSize(entries) <= limit
            && forall i :: 0 <= i < |entries| ==>
                 && Ordinary(entries[i].path)
                 && Walk(staging, SplitOn(entries[i].path, '/')) == staging + SplitOn(entries[i].path, '/')
  {
    forall h | ParseHeader(h).Ok? && ParseHeader(h).value.Regular? ensures Ordinary(ParseHeader(h).value.path) {
      HeaderPathIsOrdinary(h);
    }
    starts := FilesFromAreSafe(ParseHeader, Ordinary, archive, 0, 0, limit);
    var entries := Extracted(archive, limit).value;
    forall i | 0 <= i < |entries|
      ensures Walk(staging, SplitOn(entries[i].path, '/')) == staging + SplitOn(entries[i].path, '/')
    {
      WalkStaysBelow(staging, SplitOn(entries[i].path, '/'));
    }
  }
}
