/** The append-only value log: files DATA_0, DATA_1, ... in a directory, each up to a fixed size. */
module DataStores {
  import opened Counting
  import opened Options
  import opened ByteStrings
  import opened EngineTypes

  const SINGLE_FILE_SIZE: nat := 1024 * 1024 * 100

  const DATA_FILE_PREFIX := "DATA_"

  function Digit(d: nat): char
    requires d < 10
  {
    '0' + d as char
  }

  // std::to_string.
  function Decimal(n: nat): (s: string)
    ensures s != [] && forall c :: c in s ==> '0' <= c <= '9'
  {
    if n < 10 then [Digit(n)] else Decimal(n / 10) + [Digit(n % 10)]
  }

  predicate IsDigit(c: char) {
    '0' <= c <= '9'
  }

  function DigitValue(c: char): nat {
    if IsDigit(c) then (c - '0') as nat else 0
  }

  // The number a run of digits stands for.
  function Parse(s: string): nat {
    if s == [] then 0
    else Parse(s[..|s| - 1]) * 10 + DigitValue(s[|s| - 1])
  }

  lemma {:induction false} ParseDecimal(n: nat)
    ensures Parse(Decimal(n)) == n
  {
    if n >= 10 {
      ParseDecimal(n / 10);
      var s := Decimal(n);
      assert s[..|s| - 1] == Decimal(n / 10);
    }
  }

  function Pow10(n: nat): nat {
    if n == 0 then 1 else 10 * Pow10(n - 1)
  }

  // The first m digits of s, each times ten to the number of digits after it.
  function DigitSum(s: string, m: nat): nat
    requires m <= |s|
  {
    if m == 0 then 0 else DigitSum(s, m - 1) + DigitValue(s[m - 1]) * Pow10(|s| - m)
  }

  // A numeral stands for the sum of its digits times powers of ten.
  lemma {:induction false} ParseIsDigitSum(s: string)
    ensures Parse(s) == DigitSum(s, |s|)
  {
    if s != [] {
      var n := |s| - 1;
      ParseIsDigitSum(s[..n]);
      TimesTen(s, n);
    }
  }

  lemma {:induction false} TimesTen(s: string, m: nat)
    requires m < |s|
    ensures DigitSum(s, m) == 10 * DigitSum(s[..|s| - 1], m)
  {
    if m > 0 {
      TimesTen(s, m - 1);
      Carried(DigitSum(s[..|s| - 1], m - 1), DigitValue(s[m - 1]), Pow10(|s| - 1 - m));
    }
  }

  lemma {:induction false} Carried(a: nat, d: nat, p: nat)
    ensures 10 * a + d * (10 * p) == 10 * (a + d * p)
  {
  }

  lemma {:induction false} FileTenIsTen()
    ensures FileNo("DATA_10") == 10 && FileNo("DATA_007") == 7 && Decimal(10) == "10"
  {
    assert "DATA_10"[5..] == "10" && "DATA_007"[5..] == "007";
    assert LeadingDigits("0") == "0" && LeadingDigits("10") == "10" && LeadingDigits("7") == "7";
    assert LeadingDigits("07") == "07" && LeadingDigits("007") == "007";
    assert "10"[..1] == "1" && "1"[..0] == "" && "007"[..2] == "00" && "00"[..1] == "0" && "0"[..0] == "";
    assert Parse("1") == 1 && Parse("0") == 0 && Parse("00") == 0;
    assert Decimal(1) == "1";
  }

  function FileName(n: nat): string {
    DATA_FILE_PREFIX + Decimal(n)
  }

  predicate IsData(name: string) {
    |name| >= 5 && name[..5] == DATA_FILE_PREFIX
  }

  predicate IsSpace(c: char) {
    c == ' ' || '\t' <= c <= '\r'
  }

  // std::stoul and std::stoi skip white space and a plus sign, and read the digits that follow.
  function Unsigned(s: string): string {
    if s != [] && IsSpace(s[0]) then Unsigned(s[1..])
    else if s != [] && s[0] == '+' then s[1..] else s
  }

  function LeadingDigits(s: string): string {
    if s == [] || !IsDigit(s[0]) then [] else [s[0]] + LeadingDigits(s[1..])
  }

  // The digits they read in a data file's name; without any they throw.
  function NumberIn(name: string): string {
    if IsData(name) then LeadingDigits(Unsigned(name[5..])) else []
  }

  predicate HasNumber(name: string) {
    NumberIn(name) != []
  }

  function FileNo(name: string): nat {
    Parse(NumberIn(name))
  }

  lemma {:induction false} AllDigits(s: string)
    requires forall c :: c in s ==> IsDigit(c)
    ensures LeadingDigits(s) == s
  {
    if s != [] {
      AllDigits(s[1..]);
    }
  }

  lemma {:induction false} PlainDigits(s: string)
    requires s != [] && forall c :: c in s ==> IsDigit(c)
    ensures LeadingDigits(Unsigned(s)) == s
  {
    assert s[0] in s;
    assert !IsSpace(s[0]) && s[0] != '+';
    AllDigits(s);
  }

  predicate Spaces(s: string) {
    forall c :: c in s ==> IsSpace(c)
  }

  lemma {:induction false} SkipSpaces(pad: string, rest: string)
    requires Spaces(pad) && (rest == [] || !IsSpace(rest[0]))
    ensures Unsigned(pad + rest) == Unsigned(rest)
  {
    if pad == [] {
      assert pad + rest == rest;
    } else {
      assert pad[0] in pad && (pad + rest)[1..] == pad[1..] + rest;
      SkipSpaces(pad[1..], rest);
    }
  }

  lemma {:induction false} DigitsThenTail(digits: string, tail: string)
    requires (forall c :: c in digits ==> IsDigit(c)) && (tail == [] || !IsDigit(tail[0]))
    ensures LeadingDigits(digits + tail) == digits
  {
    if digits == [] {
      assert digits + tail == tail;
    } else {
      assert digits[0] in digits && (digits + tail)[1..] == digits[1..] + tail;
      DigitsThenTail(digits[1..], tail);
    }
  }

  // Any name that reads DATA_, white space, perhaps a plus sign, a run of digits and something
  // else has the digits for its number.
  lemma {:induction false} NumberRead(pad: string, plus: bool, digits: string, tail: string)
    requires Spaces(pad) && digits != [] && (forall c :: c in digits ==> IsDigit(c)) && (tail == [] || !IsDigit(tail[0]))
    ensures var rest := (if plus then "+" else "") + (digits + tail);
            NumberIn("DATA_" + (pad + rest)) == digits && FileNo("DATA_" + (pad + rest)) == DigitSum(digits, |digits|)
  {
    var rest := (if plus then "+" else "") + (digits + tail);
    assert digits[0] in digits && (digits + tail)[0] == digits[0];
    PrefixAndRest("DATA_", pad + rest);
    SkipSpaces(pad, rest);
    assert plus ==> rest[0] == '+' && rest[1..] == digits + tail;
    assert !plus ==> rest == digits + tail;
    DigitsThenTail(digits, tail);
    ParseIsDigitSum(digits);
  }

  lemma {:induction false} PrefixAndRest(a: string, b: string)
    ensures (a + b)[..|a|] == a && (a + b)[|a|..] == b
  {
  }

  lemma {:induction false} NameReadsBack(n: nat)
    ensures IsData(FileName(n)) && HasNumber(FileName(n)) && FileNo(FileName(n)) == n
  {
    var digits := Decimal(n);
    ParseDecimal(n);
    PlainDigits(digits);
    PrefixAndRest(DATA_FILE_PREFIX, digits);
    assert FileName(n)[5..] == digits;
  }

  type Files = map<string, Bytes>

  // A data file whose name has no number in it makes start-up throw.
  ghost predicate Numbered(files: Files, name: string) {
    name in files && IsData(name) ==> HasNumber(name)
  }

  // A data file has a number, at most `last`.
  ghost predicate FileOk(files: Files, last: nat, name: string) {
    Numbered(files, name) && (name in files && IsData(name) ==> FileNo(name) <= last)
  }

  // The directory's last data file is `last`, and `offset` bytes long.
  ghost predicate StoreOk(files: Files, last: nat, offset: nat) {
    && FileName(last) in files && |files[FileName(last)]| == offset
    && forall name :: FileOk(files, last, name)
  }

  // The value of location l is v.
  ghost predicate LocationHolds(files: Files, l: Location, v: Bytes) {
    && FileName(l.fileNo) in files
    && l.len == |v|
    && l.offset + l.len <= |files[FileName(l.fileNo)]|
    && files[FileName(l.fileNo)][l.offset..l.offset + l.len] == v
  }

  // Each file of the one directory is in the other, and begins with what it was.
  ghost predicate Extends(files: Files, files': Files) {
    forall name :: ExtendsAt(files, files', name)
  }

  ghost predicate ExtendsAt(files: Files, files': Files, name: string) {
    name in files ==> name in files' && |files[name]| <= |files'[name]| && files'[name][..|files[name]|] == files[name]
  }

  // A location keeps its value while files only grow.
  lemma {:induction false} LocationStays(files: Files, files': Files, l: Location, v: Bytes)
    requires LocationHolds(files, l, v) && Extends(files, files')
    ensures LocationHolds(files', l, v)
  {
    var name := FileName(l.fileNo);
    assert ExtendsAt(files, files', name);
    PrefixSlice(files'[name], |files[name]|, l.offset, l.offset + l.len);
  }

  // The names and lengths of the files fix the next location.
  lemma {:induction false} NextIsUnique(files: Files, last: nat, offset: nat, last': nat, offset': nat)
    requires StoreOk(files, last, offset) && StoreOk(files, last', offset')
    ensures last == last' && offset == offset'
  {
    NameReadsBack(last);
    NameReadsBack(last');
    assert FileOk(files, last, FileName(last')) && FileOk(files, last', FileName(last));
  }

  // The file an append goes to, and where in it.
  function NextLocation(last: nat, offset: nat, len: nat): Location {
    if offset + len > SINGLE_FILE_SIZE then Location(last + 1, 0, len) else Location(last, offset, len)
  }

  // The directory after an append.
  function Appended(files: Files, last: nat, offset: nat, v: Bytes): Files {
    var name := FileName(NextLocation(last, offset, |v|).fileNo);
    files[name := (if name in files then files[name] else []) + v]
  }

  // An append extends the directory, its location reads back, it starts where the file ended,
  // so it overlaps no location handed out before, and its file does not grow too long.
  lemma {:induction false} AppendLaw(files: Files, last: nat, offset: nat, v: Bytes)
    requires StoreOk(files, last, offset) && |v| <= SINGLE_FILE_SIZE
    ensures var l, files' := NextLocation(last, offset, |v|), Appended(files, last, offset, v);
            && Extends(files, files') && LocationHolds(files', l, v) && StoreOk(files', l.fileNo, l.offset + l.len)
            && l.offset == (if FileName(l.fileNo) in files then |files[FileName(l.fileNo)]| else 0)
            && l.offset + l.len <= SINGLE_FILE_SIZE
            && (l.fileNo == last <==> |files[FileName(last)]| + |v| <= SINGLE_FILE_SIZE)
            && (l.fileNo != last ==> l.fileNo == last + 1)
            && files'.Keys == files.Keys + (if l.fileNo == last then {} else {FileName(last + 1)})
  {
    var l, files' := NextLocation(last, offset, |v|), Appended(files, last, offset, v);
    var name := FileName(l.fileNo);
    NameReadsBack(l.fileNo);
    NameReadsBack(last);
    assert FileOk(files, last, FileName(last)) && FileOk(files, last, name);
    assert files'[name][l.offset..l.offset + l.len] == v;
    forall n ensures ExtendsAt(files, files', n) && FileOk(files', l.fileNo, n) {
      assert FileOk(files, last, n);
    }
  }

  // Locations never overlap.
  ghost predicate Disjoint(l: Location, m: Location) {
    l.fileNo != m.fileNo || l.offset + l.len <= m.offset || m.offset + m.len <= l.offset
  }

  lemma {:induction false} AppendIsDisjoint(files: Files, last: nat, offset: nat, v: Bytes, old_l: Location, old_v: Bytes)
    requires StoreOk(files, last, offset) && |v| <= SINGLE_FILE_SIZE && LocationHolds(files, old_l, old_v)
    ensures Disjoint(old_l, NextLocation(last, offset, |v|))
  {
    AppendLaw(files, last, offset, v);
  }

  // The directory after a run of appends, and the locations the run hands out.
  function AppendAll(files: Files, last: nat, offset: nat, vs: seq<Bytes>): Files
    decreases vs
  {
    if vs == [] then files
    else
      var l := NextLocation(last, offset, |vs[0]|);
      AppendAll(Appended(files, last, offset, vs[0]), l.fileNo, l.offset + l.len, vs[1..])
  }

  function Locations(last: nat, offset: nat, vs: seq<Bytes>): (r: seq<Location>)
    ensures |r| == |vs|
    decreases vs
  {
    if vs == [] then []
    else var l := NextLocation(last, offset, |vs[0]|); [l] + Locations(l.fileNo, l.offset + l.len, vs[1..])
  }

  ghost predicate AllFit(vs: seq<Bytes>) {
    forall i :: 0 <= i < |vs| ==> |vs[i]| <= SINGLE_FILE_SIZE
  }

  // A location handed out before a run of appends keeps its value, and overlaps none of the run's.
  lemma {:induction false} RunKeeps(files: Files, last: nat, offset: nat, vs: seq<Bytes>, l: Location, v: Bytes, j: nat)
    requires StoreOk(files, last, offset) && AllFit(vs) && LocationHolds(files, l, v)
    ensures LocationHolds(AppendAll(files, last, offset, vs), l, v)
    ensures j < |vs| ==> Disjoint(l, Locations(last, offset, vs)[j])
    decreases |vs|
  {
    if vs != [] {
      var next := NextLocation(last, offset, |vs[0]|);
      AppendLaw(files, last, offset, vs[0]);
      AppendIsDisjoint(files, last, offset, vs[0], l, v);
      LocationStays(files, Appended(files, last, offset, vs[0]), l, v);
      RunKeeps(Appended(files, last, offset, vs[0]), next.fileNo, next.offset + next.len, vs[1..], l, v, if j > 0 then j - 1 else 0);
    }
  }

  // Over any run of appends, roll-overs included: each value is read back from the location
  // its append returned, and no two locations overlap.
  lemma {:induction false} RunReadsBack(files: Files, last: nat, offset: nat, vs: seq<Bytes>, i: nat, j: nat)
    requires StoreOk(files, last, offset) && AllFit(vs) && i < |vs|
    ensures LocationHolds(AppendAll(files, last, offset, vs), Locations(last, offset, vs)[i], vs[i])
    ensures i < j < |vs| ==> Disjoint(Locations(last, offset, vs)[i], Locations(last, offset, vs)[j])
    decreases |vs|
  {
    var next, files' := NextLocation(last, offset, |vs[0]|), Appended(files, last, offset, vs[0]);
    AppendLaw(files, last, offset, vs[0]);
    if i == 0 {
      RunKeeps(files', next.fileNo, next.offset + next.len, vs[1..], next, vs[0], if j > 0 then j - 1 else 0);
    } else {
      RunReadsBack(files', next.fileNo, next.offset + next.len, vs[1..], i - 1, if j > 0 then j - 1 else 0);
    }
  }

  // The file a run of appends stands at before its i-th value, and how long it is.
  function FileBefore(last: nat, ls: seq<Location>, i: nat): nat
    requires i <= |ls|
  {
    if i == 0 then last else ls[i - 1].fileNo
  }

  function EndBefore(offset: nat, ls: seq<Location>, i: nat): nat
    requires i <= |ls|
  {
    if i == 0 then offset else ls[i - 1].offset + ls[i - 1].len
  }

  // Over any run of appends, each value goes to the end of the file the one before went to
  // while it fits there, and otherwise to the start of the next file.
  lemma {:induction false} RunRollsOver(last: nat, offset: nat, vs: seq<Bytes>, i: nat)
    requires i < |vs|
    ensures var ls := Locations(last, offset, vs);
            var no, end := FileBefore(last, ls, i), EndBefore(offset, ls, i);
            ls[i] == if end + |vs[i]| <= SINGLE_FILE_SIZE then Location(no, end, |vs[i]|) else Location(no + 1, 0, |vs[i]|)
    decreases i
  {
    if i > 0 {
      var l := NextLocation(last, offset, |vs[0]|);
      RunRollsOver(l.fileNo, l.offset + l.len, vs[1..], i - 1);
    }
  }

  // The name of a file numbered above `last`, up to `end`.
  ghost predicate NumberedBetween(last: nat, end: nat, name: string) {
    exists n: nat :: last < n <= end && name == FileName(n)
  }

  // The files a run adds are those numbered from the one after the last to the last it used.
  lemma {:induction false} RunAddsFiles(files: Files, last: nat, offset: nat, vs: seq<Bytes>, name: string)
    requires StoreOk(files, last, offset) && AllFit(vs)
    ensures var end := FileBefore(last, Locations(last, offset, vs), |vs|);
            end >= last && (name in AppendAll(files, last, offset, vs) <==> name in files || NumberedBetween(last, end, name))
    decreases |vs|
  {
    if vs != [] {
      var l, files' := NextLocation(last, offset, |vs[0]|), Appended(files, last, offset, vs[0]);
      var end := FileBefore(last, Locations(last, offset, vs), |vs|);
      AppendLaw(files, last, offset, vs[0]);
      assert name in files' <==> name in files || (l.fileNo != last && name == FileName(last + 1));
      RunAddsFiles(files', l.fileNo, l.offset + l.len, vs[1..], name);
      assert end == FileBefore(l.fileNo, Locations(l.fileNo, l.offset + l.len, vs[1..]), |vs| - 1);
      NextNumber(last, l.fileNo, end, name);
    }
  }

  lemma {:induction false} NextNumber(last: nat, next: nat, end: nat, name: string)
    requires last <= next <= last + 1 && next <= end
    ensures NumberedBetween(last, end, name) <==>
      NumberedBetween(next, end, name) || (next == last + 1 && name == FileName(last + 1))
  {
    if n: nat :| last < n <= end && name == FileName(n) {
      assert n > next || n == last + 1;
    }
  }

  // A data file is no longer than the limit.
  ghost predicate Short(files: Files, name: string) {
    name in files && IsData(name) ==> |files[name]| <= SINGLE_FILE_SIZE
  }

  // No file ever grows beyond the limit.
  lemma {:induction false} RunStaysShort(files: Files, last: nat, offset: nat, vs: seq<Bytes>)
    requires StoreOk(files, last, offset) && AllFit(vs) && forall name :: Short(files, name)
    ensures forall name :: Short(AppendAll(files, last, offset, vs), name)
    decreases |vs|
  {
    if vs != [] {
      var next, files' := NextLocation(last, offset, |vs[0]|), Appended(files, last, offset, vs[0]);
      AppendLaw(files, last, offset, vs[0]);
      forall name ensures Short(files', name) {
        assert Short(files, name);
      }
      RunStaysShort(files', next.fileNo, next.offset + next.len, vs[1..]);
    }
  }

  // The directory on disk.
  class Directory {
    var files: Files

    constructor ()
      ensures files == map[]
    {
      files := map[];
    }
  }

  // How much each read or write call is prepared to transfer; 0 is an interrupted call.
  function Sum(schedule: seq<nat>): nat {
    if schedule == [] then 0 else Sum(schedule[..|schedule| - 1]) + schedule[|schedule| - 1]
  }

  lemma {:induction false} SumNext(schedule: seq<nat>, i: nat)
    requires i < |schedule|
    ensures Sum(schedule[..i + 1]) == Sum(schedule[..i]) + schedule[i]
  {
    assert schedule[..i + 1][..i] == schedule[..i];
  }

  // Appends a value to an open file, however the calls split it.
  method FileAppend(dir: Directory, name: string, value: Bytes, schedule: seq<nat>) returns (ret: int)
    requires name in dir.files && Sum(schedule) >= |value|
    modifies dir
    ensures ret == 0 && dir.files == old(dir.files)[name := old(dir.files)[name] + value]
  {
    ghost var before := dir.files;
    var pos: nat, i: nat := 0, 0;
    assert before[name] + value[..0] == before[name];
    while pos < |value|
      invariant pos <= |value| && i <= |schedule|
      invariant pos < |value| ==> Sum(schedule[..i]) <= pos
      invariant dir.files == before[name := before[name] + value[..pos]]
      decreases |schedule| - i
    {
      assert i < |schedule| by {
        assert schedule[..|schedule|] == schedule;
      }
      SumNext(schedule, i);
      var left := |value| - pos;
      var r := if schedule[i] < left then schedule[i] else left;
      assert value[..pos] + value[pos..pos + r] == value[..pos + r];
      assert (before[name] + value[..pos]) + value[pos..pos + r] == before[name] + value[..pos + r];
      dir.files := dir.files[name := dir.files[name] + value[pos..pos + r]];
      pos, i := pos + r, i + 1;
    }
    assert value[..pos] == value;
    ret := 0;
  }

  class DataStore {
    const dir: Directory
    var lastNo: nat      // next_location_.file_no
    var offset: nat      // next_location_.offset

    ghost predicate Valid()
      reads this, dir
    {
      StoreOk(dir.files, lastNo, offset)
    }

    constructor (dir: Directory)
      ensures this.dir == dir && lastNo == 0 && offset == 0
    {
      this.dir := dir;
      lastNo, offset := 0, 0;
    }

    // Reads the next location off the names and lengths of the data files there are. False
    // stands for the exception thrown over a data file whose name has no number.
    method Init() returns (ok: bool)
      requires forall name :: NotNegative(dir.files, name)
      modifies this, dir
      ensures ok <==> forall name :: Numbered(old(dir.files), name)
      ensures ok ==> Valid() && IsLast(old(dir.files), lastNo)
      ensures ok ==> dir.files == old(dir.files) || (dir.files == old(dir.files)[FileName(lastNo) := []] && FileName(lastNo) !in old(dir.files))
      ensures forall last: nat, off: nat :: StoreOk(old(dir.files), last, off) ==>
        ok && dir.files == old(dir.files) && lastNo == last && offset == off
    {
      ghost var before := dir.files;
      forall l: nat, off: nat | StoreOk(before, l, off) ensures forall name :: Numbered(before, name) {
        StoreNumbered(before, l, off);
      }
      var last := LastFileNo(dir.files);
      ok := last.Some?;
      if ok {
        lastNo, offset := last.value, 0;
        if FileName(lastNo) in dir.files {
          offset := |dir.files[FileName(lastNo)]|;
        }
        OpenCurFile();
        OpenedStore(before, dir.files, lastNo, offset);
      }
    }

    method OpenCurFile()
      modifies dir
      ensures dir.files == if FileName(lastNo) in old(dir.files) then old(dir.files) else old(dir.files)[FileName(lastNo) := []]
    {
      if FileName(lastNo) !in dir.files {
        dir.files := dir.files[FileName(lastNo) := []];
      }
    }

    // Appends a value, in a new file if it would make the current one too long.
    method Append(value: Bytes, schedule: seq<nat>) returns (ret: RetCode, location: Location)
      requires Valid() && Sum(schedule) >= |value|
      modifies this, dir
      ensures Valid()
      ensures ret == if |value| > SINGLE_FILE_SIZE then InvalidArgument else Succ
      ensures ret != Succ ==> dir.files == old(dir.files)
      ensures ret == Succ ==>
        && location == NextLocation(old(lastNo), old(offset), |value|)
        && dir.files == Appended(old(dir.files), old(lastNo), old(offset), value)
        && Extends(old(dir.files), dir.files) && LocationHolds(dir.files, location, value)
        && |dir.files[FileName(location.fileNo)]| <= SINGLE_FILE_SIZE
      // The current file if the value still fits it, the next one otherwise, made for it.
      ensures ret == Succ ==>
        && (location.fileNo == old(lastNo) <==> |old(dir.files)[FileName(old(lastNo))]| + |value| <= SINGLE_FILE_SIZE)
        && (location.fileNo != old(lastNo) ==> location.fileNo == old(lastNo) + 1 && location.offset == 0)
        && (location.fileNo == old(lastNo) ==> location.offset == |old(dir.files)[FileName(old(lastNo))]|)
        && dir.files.Keys == old(dir.files).Keys + (if location.fileNo == old(lastNo) then {} else {FileName(old(lastNo) + 1)})
        && lastNo == location.fileNo && offset == location.offset + location.len
    {
      location := Location(0, 0, 0);
      if |value| > SINGLE_FILE_SIZE {
        return InvalidArgument, location;
      }
      AppendLaw(dir.files, lastNo, offset, value);
      if offset + |value| > SINGLE_FILE_SIZE {
        lastNo, offset := lastNo + 1, 0;
        OpenCurFile();
      }
      var r := FileAppend(dir, FileName(lastNo), value, schedule);
      location := Location(lastNo, offset, |value|);
      offset := offset + location.len;
      assert dir.files == Appended(old(dir.files), old(lastNo), old(offset), value);
      ret := Succ;
    }

    // Reads a location back, however the calls split it.
    method Read(l: Location, schedule: seq<nat>) returns (ret: RetCode, value: Bytes)
      requires FileName(l.fileNo) in dir.files ==> l.offset + l.len <= |dir.files[FileName(l.fileNo)]|
      requires Sum(schedule) >= l.len
      ensures ret == if FileName(l.fileNo) in dir.files then Succ else IOError
      ensures ret == Succ ==> value == dir.files[FileName(l.fileNo)][l.offset..l.offset + l.len]
    {
      value := [];
      if FileName(l.fileNo) !in dir.files {
        return IOError, value;
      }
      var file := dir.files[FileName(l.fileNo)];
      var i: nat := 0;
      while |value| < l.len
        invariant |value| <= l.len && i <= |schedule|
        invariant |value| < l.len ==> Sum(schedule[..i]) <= |value|
        invariant value == file[l.offset..l.offset + |value|]
        decreases |schedule| - i
      {
        assert i < |schedule| by {
          assert schedule[..|schedule|] == schedule;
        }
        SumNext(schedule, i);
        var pos, left := l.offset + |value|, l.len - |value|;
        var r := if schedule[i] < left then schedule[i] else left;
        value, i := value + file[pos..pos + r], i + 1;
      }
      ret := Succ;
    }
  }

  // With a minus sign before the digits, stoul and stoi read different numbers.
  ghost predicate NotNegative(files: Files, name: string) {
    name in files && IsData(name) && Unsigned(name[5..]) != [] ==> Unsigned(name[5..])[0] != '-'
  }

  // The last data file has been opened, made anew if its name was not there.
  lemma {:induction false} OpenedStore(before: Files, files: Files, last: nat, offset: nat)
    requires IsLast(before, last)
    requires offset == if FileName(last) in before then |before[FileName(last)]| else 0
    requires files == if FileName(last) in before then before else before[FileName(last) := []]
    ensures StoreOk(files, last, offset)
    ensures forall l: nat, off: nat :: StoreOk(before, l, off) ==> files == before && last == l && offset == off
  {
    NameReadsBack(last);
    forall name ensures FileOk(files, last, name) {
      assert FileOk(before, last, name);
    }
    forall l: nat, off: nat | StoreOk(before, l, off) ensures files == before && last == l && offset == off {
      StoreHasLast(before, l, off, last);
      NextIsUnique(before, last, offset, l, off);
    }
  }

  lemma {:induction false} StoreNumbered(files: Files, last: nat, offset: nat)
    requires StoreOk(files, last, offset)
    ensures forall name :: Numbered(files, name) && NotNegative(files, name)
  {
    forall name ensures Numbered(files, name) && NotNegative(files, name) {
      assert FileOk(files, last, name);
    }
  }

  // No data file has a higher number than `last`, and one has it, unless it is 0.
  ghost predicate IsLast(files: Files, last: nat) {
    && (forall name :: FileOk(files, last, name))
    && (last > 0 ==> exists name :: NumberedAs(files, name, last))
  }

  ghost predicate NumberedAs(files: Files, name: string, n: nat) {
    name in files && IsData(name) && FileNo(name) == n
  }

  lemma {:induction false} StoreHasLast(files: Files, last: nat, offset: nat, highest: nat)
    requires StoreOk(files, last, offset) && IsLast(files, highest)
    ensures highest == last
  {
    NameReadsBack(last);
    assert FileOk(files, highest, FileName(last));
    if highest > 0 {
      var name :| NumberedAs(files, name, highest);
      assert FileOk(files, last, name);
    }
  }

  // The highest number a data file has, 0 when there is none; None when one has no number.
  method LastFileNo(files: Files) returns (last: Option<nat>)
    ensures last.None? <==> exists name :: !Numbered(files, name)
    ensures last.Some? ==> IsLast(files, last.value)
  {
    var lastNo := 0;
    var rest := files.Keys;
    while rest != {}
      invariant rest <= files.Keys
      invariant forall name :: FileOk(files, lastNo, name) || name in rest
      invariant lastNo > 0 ==> exists name :: NumberedAs(files, name, lastNo)
      decreases |rest|
    {
      var name :| name in rest;
      rest := rest - {name};
      if IsData(name) {
        if !HasNumber(name) {
          assert !Numbered(files, name);
          return None;
        }
        if FileNo(name) > lastNo {
          lastNo := FileNo(name);
          assert NumberedAs(files, name, lastNo);
        }
      }
    }
    assert forall name :: FileOk(files, lastNo, name) ==> Numbered(files, name);
    last := Some(lastNo);
  }
}
