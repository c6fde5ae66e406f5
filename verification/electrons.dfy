/** The electron table of `g_mydensity`: a text file whose first line is a
    count N followed by N lines `name = electrons`, loaded once, sorted by
    `strcmp` and searched with `bsearch` for every atom deposited in
    electron-density mode. */
module Electrons {
  import opened Common

  /** One `t_electron`: an atom name and its number of electrons. */
  datatype Entry = Entry(name: string, electrons: int)

  /** A successfully loaded table and the count `get_electrons` returns. */
  datatype Loaded = Loaded(table: seq<Entry>, count: int)

  // ---------------------------------------------------------------------
  // The strcmp order
  // ---------------------------------------------------------------------

  /** The sign of `strcmp(a, b)`: character-wise lexicographic, with a
      proper prefix ordered first. */
  function Compare(a: string, b: string): (c: int)
    ensures -1 <= c <= 1
  {
    if |a| == 0 && |b| == 0 then 0
    else if |a| == 0 then -1
    else if |b| == 0 then 1
    else if a[0] < b[0] then -1
    else if a[0] > b[0] then 1
    else Compare(a[1..], b[1..])
  }

  lemma {:induction false} CompareZero(a: string, b: string)
    ensures Compare(a, b) == 0 <==> a == b
  {
    if |a| > 0 && |b| > 0 && a[0] == b[0] {
      CompareZero(a[1..], b[1..]);
      assert a == [a[0]] + a[1..] && b == [b[0]] + b[1..];
    }
  }

  lemma {:induction false} CompareFlip(a: string, b: string)
    ensures Compare(b, a) == -Compare(a, b)
  {
    if |a| > 0 && |b| > 0 && a[0] == b[0] {
      CompareFlip(a[1..], b[1..]);
    }
  }

  lemma {:induction false} CompareLeTrans(a: string, b: string, c: string)
    requires Compare(a, b) <= 0 && Compare(b, c) <= 0
    ensures Compare(a, c) <= 0
  {
    if |a| > 0 && |b| > 0 && |c| > 0 && a[0] == b[0] == c[0] {
      CompareLeTrans(a[1..], b[1..], c[1..]);
    }
  }

  lemma {:induction false} CompareLtLeTrans(a: string, b: string, c: string)
    requires Compare(a, b) < 0 && Compare(b, c) <= 0
    ensures Compare(a, c) < 0
  {
    if |a| > 0 && |b| > 0 && |c| > 0 && a[0] == b[0] == c[0] {
      CompareLtLeTrans(a[1..], b[1..], c[1..]);
    }
  }

  lemma {:induction false} CompareLeLtTrans(a: string, b: string, c: string)
    requires Compare(a, b) <= 0 && Compare(b, c) < 0
    ensures Compare(a, c) < 0
  {
    if |a| > 0 && |b| > 0 && |c| > 0 && a[0] == b[0] == c[0] {
      CompareLeLtTrans(a[1..], b[1..], c[1..]);
    }
  }

  /** Ascending under `compare` (the `strcmp` of the names). */
  predicate Sorted(t: seq<Entry>) {
    forall i, j {:trigger Compare(t[i].name, t[j].name)} :: 0 <= i < j < |t| ==> Compare(t[i].name, t[j].name) <= 0
  }

  // ---------------------------------------------------------------------
  // Sorting (qsort with `compare`)
  // ---------------------------------------------------------------------

  lemma InsertFrontSorted(e: Entry, t: seq<Entry>)
    requires Sorted(t) && |t| > 0 && Compare(e.name, t[0].name) <= 0
    ensures Sorted([e] + t)
  {
    var r := [e] + t;
    forall i, j | 0 <= i < j < |r|
      ensures Compare(r[i].name, r[j].name) <= 0
    {
      if i == 0 && j > 1 {
        CompareLeTrans(e.name, t[0].name, t[j - 1].name);
      }
    }
  }

  lemma InsertBehindSorted(e: Entry, t: seq<Entry>, rest: seq<Entry>)
    requires Sorted(t) && |t| > 0 && Compare(e.name, t[0].name) > 0
    requires Sorted(rest) && multiset(rest) == multiset(t[1..]) + multiset{e}
    ensures Sorted([t[0]] + rest)
  {
    var r := [t[0]] + rest;
    CompareFlip(e.name, t[0].name);
    forall j | 1 <= j < |r|
      ensures Compare(t[0].name, r[j].name) <= 0
    {
      assert r[j] == rest[j - 1];
      assert rest[j - 1] in multiset(rest);
      if r[j] != e {
        assert r[j] in multiset(t[1..]);
        var k :| 0 <= k < |t[1..]| && t[1..][k] == r[j];
        assert t[k + 1] == r[j];
      }
    }
    forall i, j | 0 <= i < j < |r|
      ensures Compare(r[i].name, r[j].name) <= 0
    {
      if i > 0 {
        assert r[i] == rest[i - 1] && r[j] == rest[j - 1];
      }
    }
  }

  /** Inserts `e` into a sorted table, before the first entry not below it. */
  function Insert(e: Entry, t: seq<Entry>): (r: seq<Entry>)
    requires Sorted(t)
    ensures Sorted(r)
    ensures multiset(r) == multiset(t) + multiset{e}
  {
    if |t| == 0 then [e]
    else if Compare(e.name, t[0].name) <= 0 then
      InsertFrontSorted(e, t);
      [e] + t
    else
      var rest := Insert(e, t[1..]);
      InsertBehindSorted(e, t, rest);
      assert t == [t[0]] + t[1..];
      [t[0]] + rest
  }

  /** The table `qsort` leaves behind: a sorted permutation of its input. */
  function SortEntries(t: seq<Entry>): (r: seq<Entry>)
    ensures Sorted(r)
    ensures multiset(r) == multiset(t)
    ensures |r| == |t|
  {
    if |t| == 0 then []
    else
      assert t == [t[0]] + t[1..];
      Insert(t[0], SortEntries(t[1..]))
  }

  // ---------------------------------------------------------------------
  // Lookup (bsearch with `compare`)
  // ---------------------------------------------------------------------

  lemma BelowAllFrom(t: seq<Entry>, key: string, idx: nat, u: nat)
    requires Sorted(t) && idx < u <= |t| && Compare(key, t[idx].name) < 0
    ensures forall k :: idx <= k < u ==> t[k].name != key
  {
    forall k | idx <= k < u
      ensures t[k].name != key
    {
      CompareZero(t[idx].name, t[k].name);
      CompareLtLeTrans(key, t[idx].name, t[k].name);
      CompareZero(key, t[k].name);
    }
  }

  lemma AboveAllUpTo(t: seq<Entry>, key: string, l: nat, idx: nat)
    requires Sorted(t) && l <= idx < |t| && Compare(key, t[idx].name) > 0
    ensures forall k :: l <= k <= idx ==> t[k].name != key
  {
    CompareFlip(key, t[idx].name);
    forall k | l <= k <= idx
      ensures t[k].name != key
    {
      CompareZero(t[k].name, t[idx].name);
      CompareLeLtTrans(t[k].name, t[idx].name, key);
      CompareZero(t[k].name, key);
    }
  }

  /** glibc's `bsearch` over `t[l..u]`: probe the middle, then keep the half
      that can still hold `key`. */
  function Search(t: seq<Entry>, key: string, l: nat, u: nat): (r: Option<nat>)
    requires Sorted(t) && l <= u <= |t|
    ensures r.Some? ==> l <= r.value < u && t[r.value].name == key
    ensures r.None? ==> forall k :: l <= k < u ==> t[k].name != key
    decreases u - l
  {
    if l >= u then None
    else
      var idx := (l + u) / 2;
      var c := Compare(key, t[idx].name);
      if c < 0 then
        BelowAllFrom(t, key, idx, u);
        Search(t, key, l, idx)
      else if c > 0 then
        AboveAllUpTo(t, key, l, idx);
        Search(t, key, idx + 1, u)
      else
        CompareZero(key, t[idx].name);
        Some(idx)
  }

  /** The entry `bsearch` finds for an atom name, or `None` (a NULL result). */
  function Lookup(t: seq<Entry>, key: string): (r: Option<Entry>)
    requires Sorted(t)
    ensures r.Some? ==> r.value in t && r.value.name == key
    ensures r.None? <==> forall e :: e in t ==> e.name != key
  {
    match Search(t, key, 0, |t|)
    case None => None
    case Some(i) => Some(t[i])
  }

  /** Names that tell entries apart: no two entries share a name. */
  predicate DistinctNames(t: seq<Entry>) {
    forall i, j :: 0 <= i < j < |t| ==> t[i].name != t[j].name
  }

  /** Whatever order the entries were listed in, looking a name up in the
      sorted table yields exactly the entry listed under that name, and
      nothing for a name that was not listed. */
  lemma LookupAfterSort(entries: seq<Entry>, key: string)
    requires DistinctNames(entries)
    ensures Lookup(SortEntries(entries), key).Some? <==> exists e :: e in entries && e.name == key
    ensures forall e :: e in entries && e.name == key ==> Lookup(SortEntries(entries), key) == Some(e)
  {
    var t := SortEntries(entries);
    assert forall e :: e in t <==> e in entries by {
      forall e ensures e in t <==> e in entries {
        assert e in t <==> e in multiset(t);
        assert e in entries <==> e in multiset(entries);
      }
    }
    var r := Lookup(t, key);
    if r.Some? {
      forall e | e in entries && e.name == key
        ensures r == Some(e)
      {
        var i :| 0 <= i < |entries| && entries[i] == e;
        var j :| 0 <= j < |entries| && entries[j] == r.value;
        SameNameSameIndex(entries, i, j);
      }
    }
  }

  /** Under distinct names, two positions holding the same name are one. */
  lemma SameNameSameIndex(t: seq<Entry>, i: nat, j: nat)
    requires DistinctNames(t) && i < |t| && j < |t| && t[i].name == t[j].name
    ensures i == j
  {
  }

  // ---------------------------------------------------------------------
  // Reading the data file (sscanf "%d" and "%s = %d")
  // ---------------------------------------------------------------------

  /** C's `isspace` in the "C" locale. */
  predicate IsSpace(c: char) {
    c == ' ' || 9 <= c as int <= 13
  }

  predicate IsDigit(c: char) {
    '0' <= c <= '9'
  }

  predicate AllDigits(s: string) {
    forall i :: 0 <= i < |s| ==> IsDigit(s[i])
  }

  /** The length of the white space `s` starts with. */
  function SpaceSpan(s: string): (n: nat)
    ensures n <= |s|
    ensures forall i :: 0 <= i < n ==> IsSpace(s[i])
    ensures n < |s| ==> !IsSpace(s[n])
  {
    if |s| > 0 && IsSpace(s[0]) then 1 + SpaceSpan(s[1..]) else 0
  }

  /** What remains of `s` once its leading white space is skipped. */
  function SkipSpace(s: string): string {
    s[SpaceSpan(s)..]
  }

  /** The length of the longest all-digit prefix of `s`. */
  function DigitSpan(s: string): (n: nat)
    ensures n <= |s| && AllDigits(s[..n])
    ensures n < |s| ==> !IsDigit(s[n])
  {
    if |s| > 0 && IsDigit(s[0]) then
      var n := 1 + DigitSpan(s[1..]);
      assert s[..n] == [s[0]] + s[1..][..n - 1];
      n
    else 0
  }

  /** The length of the longest prefix of `s` without white space (`%s`). */
  function TokenSpan(s: string): (n: nat)
    ensures n <= |s|
    ensures forall i :: 0 <= i < n ==> !IsSpace(s[i])
    ensures n < |s| ==> IsSpace(s[n])
  {
    if |s| > 0 && !IsSpace(s[0]) then 1 + TokenSpan(s[1..]) else 0
  }

  function DigitValue(c: char): int {
    c as int - '0' as int
  }

  /** The value of a decimal numeral, most significant digit first. */
  function DigitsValue(ds: string): nat
    requires AllDigits(ds)
  {
    if |ds| == 0 then 0
    else DigitsValue(ds[..|ds| - 1]) * 10 + DigitValue(ds[|ds| - 1])
  }

  /** `%d`: white space, an optional sign and at least one digit; the value
      read and the unread rest of the line, or `None` on a matching failure. */
  function ScanInt(s: string): (r: Option<(int, string)>)
    ensures r.Some? ==> |r.value.1| < |s| && r.value.1 == s[|s| - |r.value.1|..]
  {
    var k := SpaceSpan(s);
    var r := ScanSigned(s[k..]);
    if r.Some? then
      assert s[k..][|s[k..]| - |r.value.1|..] == s[|s| - |r.value.1|..];
      r
    else r
  }

  /** `%d` once the white space is skipped: an optional sign and at least one digit. */
  function ScanSigned(t: string): (r: Option<(int, string)>)
    ensures r.Some? ==> |r.value.1| < |t| && r.value.1 == t[|t| - |r.value.1|..]
  {
    var signed := |t| > 0 && (t[0] == '-' || t[0] == '+');
    var body := if signed then t[1..] else t;
    var n := DigitSpan(body);
    if n == 0 then None
    else
      var v: int := DigitsValue(body[..n]);
      Some((if signed && t[0] == '-' then -v else v, body[n..]))
  }

  /** `sscanf(line, "%s = %d", name, &nr)` returning 2: a white-space free
      token, optional white space, `=`, and an integer. */
  function ScanEntry(line: string): Option<Entry> {
    var s1 := SkipSpace(line);
    var n := TokenSpan(s1);
    if n == 0 then None
    else
      var s2 := SkipSpace(s1[n..]);
      if |s2| == 0 || s2[0] != '=' then None
      else
        match ScanInt(s2[1..])
        case None => None
        case Some((v, _)) => Some(Entry(s1[..n], v))
  }

  /** The name a successful `ScanEntry` has read is the line's first
      token, which `%s` ends at white space: it is non-empty, holds no white
      space, and is followed by white space (so a name written against its
      `=` never scans). */
  lemma ScanEntryName(line: string)
    ensures var r := ScanEntry(line);
      r.Some? ==>
        var s1 := SkipSpace(line);
        var n := |r.value.name|;
        && ValidName(r.value.name)
        && n < |s1| && s1[..n] == r.value.name && IsSpace(s1[n])
  {
    var s1 := SkipSpace(line);
    var n := TokenSpan(s1);
    if ScanEntry(line).Some? {
      var s2 := SkipSpace(s1[n..]);
      assert ScanEntry(line).value.name == s1[..n];
      assert 0 < n < |s1| by {
        assert |s2| > 0;
      }
      TokenIsName(s1);
    }
  }

  /** A non-empty token that stops short of the end of `s` is a valid name followed by white space. */
  lemma TokenIsName(s: string)
    requires 0 < TokenSpan(s) < |s|
    ensures ValidName(s[..TokenSpan(s)]) && IsSpace(s[TokenSpan(s)])
  {
  }

  /** After the name a successful `ScanEntry` has read white space, `=`,
      and the count, which is what `%d` reads after the `=`. */
  lemma ScanEntryValue(line: string)
    ensures var r := ScanEntry(line);
      r.Some? ==>
        var rest := SkipSpace(SkipSpace(line)[|r.value.name|..]);
        && |rest| > 0 && rest[0] == '='
        && ScanInt(rest[1..]).Some? && ScanInt(rest[1..]).value.0 == r.value.electrons
  {
    var s1 := SkipSpace(line);
    var n := TokenSpan(s1);
    if ScanEntry(line).Some? {
      var s2 := SkipSpace(s1[n..]);
      var name := s1[..n];
      assert ScanEntry(line) == Some(Entry(name, ScanInt(s2[1..]).value.0));
      assert |name| == n;
    }
  }

  /** A line of white space only does not scan. */
  lemma ScanEntryRejectsBlank(line: string)
    requires SpaceSpan(line) == |line|
    ensures ScanEntry(line).None?
  {
    assert SkipSpace(line) == [];
  }

  /** A line scans only if it holds an `=`. */
  lemma ScanEntryNeedsEquals(line: string)
    ensures ScanEntry(line).Some? ==> '=' in line
  {
    var s1 := SkipSpace(line);
    var n := TokenSpan(s1);
    if n > 0 {
      var s2 := SkipSpace(s1[n..]);
      if |s2| > 0 && s2[0] == '=' {
        var k := SpaceSpan(line);
        var m := SpaceSpan(s1[n..]);
        assert s2[0] == s1[n + m];
        assert s1[n + m] == line[k + n + m];
      }
    }
  }

  /** Every line of the file as `sscanf(line, "%s = %d", ...)` reads it. */
  function ScanLines(lines: seq<string>): (scanned: seq<Option<Entry>>)
    ensures |scanned| == |lines|
  {
    if |lines| == 0 then [] else [ScanEntry(lines[0])] + ScanLines(lines[1..])
  }

  /** Line `j` scans as `ScanEntry` reads it. */
  lemma {:induction false} ScanLinesAt(lines: seq<string>, j: nat)
    requires j < |lines|
    ensures ScanLines(lines)[j] == ScanEntry(lines[j])
  {
    if j > 0 {
      ScanLinesAt(lines[1..], j - 1);
    }
  }

  /** The `nr` lines after the count line exist and each reads as
      `name = electrons`; `scanned` holds the lines after the count line. */
  predicate EntryLinesOk(scanned: seq<Option<Entry>>, nr: nat) {
    nr <= |scanned| && forall k :: 0 <= k < nr ==> scanned[k].Some?
  }

  /** The entries those `nr` lines hold, in file order. */
  function EntriesOf(scanned: seq<Option<Entry>>, nr: nat): seq<Entry>
    requires EntryLinesOk(scanned, nr)
  {
    seq(nr, k requires 0 <= k < nr => scanned[k].value)
  }

  /** The entry lines `i .. nr - 1` after the count line, in file order; the
      first one that is missing or did not scan is fatal, and the message
      numbers entry line `k` as line `k + 1`. */
  function ParseFrom(scanned: seq<Option<Entry>>, nr: nat, i: nat): (r: Result<seq<Entry>>)
    requires i <= nr
    ensures r.Ok? <==> (i < nr ==> nr <= |scanned|) && forall k :: i <= k < nr ==> scanned[k].Some?
    ensures r.Ok? ==> |r.value| == nr - i
    ensures r.Ok? ==> forall k :: 0 <= k < |r.value| ==> scanned[i + k] == Some(r.value[k])
    ensures r.Fail? && r.error.InvalidDatafileLine? ==>
      i < r.error.line <= nr && r.error.line <= |scanned| && scanned[r.error.line - 1].None?
    ensures r.Fail? ==> r.error == TruncatedDatafile || r.error.InvalidDatafileLine?
    decreases nr - i
  {
    if i == nr then Ok([])
    else if i >= |scanned| then Fail(TruncatedDatafile)
    else
      match scanned[i]
      case None => Fail(InvalidDatafileLine(i + 1))
      case Some(e) =>
        match ParseFrom(scanned, nr, i + 1)
        case Fail(err) => Fail(err)
        case Ok(rest) => Ok([e] + rest)
  }

  /** The table part of `get_electrons`: the `nr` lines after the count
      line, read and sorted. */
  function LoadEntries(lines: seq<string>, nr: nat): (r: Result<Loaded>)
    requires |lines| > 0
    ensures r.Ok? <==> EntryLinesOk(ScanLines(lines[1..]), nr)
    ensures r.Ok? ==>
      && r.value.count == nr
      && |r.value.table| == nr
      && Sorted(r.value.table)
      && multiset(r.value.table) == multiset(EntriesOf(ScanLines(lines[1..]), nr))
  {
    LoadScanned(ScanLines(lines[1..]), nr)
  }

  /** `LoadEntries` once the lines are scanned. */
  function LoadScanned(scanned: seq<Option<Entry>>, nr: nat): (r: Result<Loaded>)
    ensures r.Ok? <==> EntryLinesOk(scanned, nr)
    ensures r.Ok? ==>
      && r.value.count == nr
      && |r.value.table| == nr
      && Sorted(r.value.table)
      && multiset(r.value.table) == multiset(EntriesOf(scanned, nr))
  {
    match ParseFrom(scanned, nr, 0)
    case Fail(e) => Fail(e)
    case Ok(entries) =>
      assert entries == EntriesOf(scanned, nr);
      Ok(Loaded(SortEntries(entries), nr))
  }

  /** `get_electrons`: read the count, read that many `name = electrons`
      lines, sort them; any unreadable line is fatal. */
  function LoadTable(lines: seq<string>): (r: Result<Loaded>)
    ensures r.Ok? <==>
      && |lines| > 0
      && ScanInt(lines[0]).Some?
      && ScanInt(lines[0]).value.0 >= 0
      && EntryLinesOk(ScanLines(lines[1..]), ScanInt(lines[0]).value.0)
    ensures r.Ok? ==>
      && r.value.count == ScanInt(lines[0]).value.0
      && |r.value.table| == r.value.count
      && Sorted(r.value.table)
      && multiset(r.value.table) == multiset(EntriesOf(ScanLines(lines[1..]), r.value.count))
    ensures |lines| == 0 ==> r == Fail(EmptyDatafile)
    ensures |lines| > 0 && ScanInt(lines[0]).None? ==> r == Fail(InvalidAtomTypeCount)
  {
    if |lines| == 0 then Fail(EmptyDatafile)
    else
      match ScanInt(lines[0])
      case None => Fail(InvalidAtomTypeCount)
      case Some((nr, _)) =>
        if nr < 0 then Fail(OutOfMemory) else LoadEntries(lines, nr)
  }

  // ---------------------------------------------------------------------
  // The file format the loader reads, and its round trip
  // ---------------------------------------------------------------------

  function Digit(d: nat): char
    requires d < 10
  {
    ('0' as int + d) as char
  }

  function NatToString(n: nat): (s: string)
    decreases n
  {
    if n < 10 then [Digit(n)] else NatToString(n / 10) + [Digit(n % 10)]
  }

  function IntToString(v: int): string {
    if v < 0 then "-" + NatToString(-v) else NatToString(v)
  }

  /** A name `%s` reads back whole: non-empty and free of white space. */
  predicate ValidName(name: string) {
    |name| > 0 && forall i :: 0 <= i < |name| ==> !IsSpace(name[i])
  }

  function FormatEntry(e: Entry): string {
    e.name + " = " + IntToString(e.electrons)
  }

  /** A data file in the documented layout: the count, then one line per entry. */
  function FormatTable(entries: seq<Entry>): (lines: seq<string>)
    ensures |lines| == |entries| + 1
    ensures lines[1..] == EntryLines(entries)
  {
    [IntToString(|entries|)] + EntryLines(entries)
  }

  /** The lines after the count line, one per entry. */
  function EntryLines(entries: seq<Entry>): (lines: seq<string>)
    ensures |lines| == |entries|
  {
    seq(|entries|, k requires 0 <= k < |entries| => FormatEntry(entries[k]))
  }

  lemma {:induction false} NatToStringDigits(n: nat)
    ensures |NatToString(n)| > 0 && AllDigits(NatToString(n))
    ensures DigitsValue(NatToString(n)) == n
    decreases n
  {
    var s := NatToString(n);
    if n >= 10 {
      NatToStringDigits(n / 10);
      assert s[..|s| - 1] == NatToString(n / 10);
    } else {
      assert s[..|s| - 1] == [];
    }
  }

  lemma {:induction false} DigitSpanOfNumeral(ds: string, rest: string)
    requires AllDigits(ds)
    requires |rest| == 0 || !IsDigit(rest[0])
    ensures DigitSpan(ds + rest) == |ds|
  {
    if |ds| > 0 {
      assert (ds + rest)[1..] == ds[1..] + rest;
      DigitSpanOfNumeral(ds[1..], rest);
    }
  }

  /** `%d` reads an unsigned numeral and stops right after it. */
  lemma ScanNumeral(a: nat, rest: string)
    requires |rest| == 0 || !IsDigit(rest[0])
    ensures var ds := NatToString(a);
      && DigitSpan(ds + rest) == |ds| && DigitsValue(ds) == a
      && (ds + rest)[..|ds|] == ds && (ds + rest)[|ds|..] == rest
  {
    var ds := NatToString(a);
    NatToStringDigits(a);
    DigitSpanOfNumeral(ds, rest);
  }

  /** `%d` reads back what `IntToString` wrote and stops right after it. */
  lemma ScanIntRoundTrip(v: int, rest: string)
    requires |rest| == 0 || !IsDigit(rest[0])
    ensures ScanInt(IntToString(v) + rest) == Some((v, rest))
  {
    if v < 0 {
      ScanNegative(v, rest);
    } else {
      ScanUnsigned(v, rest);
    }
  }

  lemma ScanUnsigned(v: int, rest: string)
    requires v >= 0 && (|rest| == 0 || !IsDigit(rest[0]))
    ensures ScanInt(IntToString(v) + rest) == Some((v, rest))
  {
    var ds := NatToString(v);
    ScanNumeral(v, rest);
    var s := ds + rest;
    assert IntToString(v) + rest == s;
    assert s[0] == ds[0];
    assert SpaceSpan(s) == 0 && s[0..] == s;
    assert DigitSpan(s) == |ds| && s[..|ds|] == ds && s[|ds|..] == rest;
    assert ScanSigned(s) == Some((v, rest));
  }

  lemma ScanNegative(v: int, rest: string)
    requires v < 0 && (|rest| == 0 || !IsDigit(rest[0]))
    ensures ScanInt(IntToString(v) + rest) == Some((v, rest))
  {
    var ds := NatToString(-v);
    ScanNumeral(-v, rest);
    var s := "-" + (ds + rest);
    assert IntToString(v) + rest == s;
    assert SpaceSpan(s) == 0 && s[0..] == s;
    var body := s[1..];
    assert body == ds + rest;
    assert DigitSpan(body) == |ds| && body[..|ds|] == ds && body[|ds|..] == rest;
    assert ScanSigned(s) == Some((v, rest));
  }

  lemma ScanIntLeadingSpace(s: string)
    ensures ScanInt([' '] + s) == ScanInt(s)
  {
    assert ([' '] + s)[1..] == s;
    assert SpaceSpan([' '] + s) == 1 + SpaceSpan(s);
    assert ([' '] + s)[1 + SpaceSpan(s)..] == s[SpaceSpan(s)..];
  }

  /** How `ScanEntry` reads a line that starts with a token of length `n`. */
  lemma ScanEntryOfToken(line: string, n: nat, after: string, v: int, rest: string)
    requires 0 < n <= |line| && SpaceSpan(line) == 0 && TokenSpan(line) == n
    requires SkipSpace(line[n..]) == ['='] + after
    requires ScanInt(after) == Some((v, rest))
    ensures ScanEntry(line) == Some(Entry(line[..n], v))
  {
    assert SkipSpace(line) == line;
    assert (['='] + after)[1..] == after;
  }

  /** What follows the name in a formatted line: the white space before
      `=` is skipped, and `%d` reads the number after it. */
  lemma EqualsThenNumber(v: int)
    ensures SkipSpace(" = " + IntToString(v)) == ['='] + (" " + IntToString(v))
    ensures ScanInt(" " + IntToString(v)) == Some((v, ""))
  {
    var num := IntToString(v);
    assert " = " + num == [' '] + (['='] + (" " + num));
    assert (" = " + num)[1..] == ['='] + (" " + num);
    assert SpaceSpan(['='] + (" " + num)) == 0;
    assert SpaceSpan(" = " + num) == 1;
    ScanIntRoundTrip(v, "");
    assert num + "" == num;
    assert " " + num == [' '] + num;
    ScanIntLeadingSpace(num);
  }

  /** `%s = %d` reads back the line `FormatEntry` wrote. */
  lemma ScanEntryRoundTrip(e: Entry)
    requires ValidName(e.name)
    ensures ScanEntry(FormatEntry(e)) == Some(e)
  {
    var num := IntToString(e.electrons);
    var line := FormatEntry(e);
    var n := |e.name|;
    assert line == e.name + (" = " + num);
    assert line[0] == e.name[0];
    TokenSpanOfName(e.name, " = " + num);
    assert line[..n] == e.name;
    assert line[n..] == " = " + num;
    EqualsThenNumber(e.electrons);
    ScanEntryOfToken(line, n, " " + num, e.electrons, "");
  }

  lemma {:induction false} TokenSpanOfName(name: string, rest: string)
    requires forall i :: 0 <= i < |name| ==> !IsSpace(name[i])
    requires |rest| > 0 && IsSpace(rest[0])
    ensures TokenSpan(name + rest) == |name|
  {
    if |name| > 0 {
      assert (name + rest)[1..] == name[1..] + rest;
      TokenSpanOfName(name[1..], rest);
    }
  }

  /** Line `k + 1` of a formatted table reads as entry `k`. */
  lemma FormattedLineScans(entries: seq<Entry>, k: nat)
    requires k < |entries| && ValidName(entries[k].name)
    ensures ScanLines(EntryLines(entries))[k] == Some(entries[k])
  {
    ScanEntryRoundTrip(entries[k]);
    ScanLinesAt(EntryLines(entries), k);
  }

  /** Every entry line of a formatted table reads as its entry. */
  lemma FormattedEntriesScan(entries: seq<Entry>)
    requires forall k :: 0 <= k < |entries| ==> ValidName(entries[k].name)
    ensures forall k :: 0 <= k < |entries| ==> ScanLines(EntryLines(entries))[k] == Some(entries[k])
  {
    forall k | 0 <= k < |entries|
      ensures ScanLines(EntryLines(entries))[k] == Some(entries[k])
    {
      FormattedLineScans(entries, k);
    }
  }

  /** A formatted table reads back: the count line, and every entry line. */
  lemma FormattedLinesScan(entries: seq<Entry>)
    requires forall k :: 0 <= k < |entries| ==> ValidName(entries[k].name)
    ensures ScanInt(FormatTable(entries)[0]) == Some((|entries|, ""))
    ensures EntryLinesOk(ScanLines(FormatTable(entries)[1..]), |entries|)
    ensures EntriesOf(ScanLines(FormatTable(entries)[1..]), |entries|) == entries
  {
    ScanIntRoundTrip(|entries|, "");
    assert IntToString(|entries|) + "" == IntToString(|entries|);
    FormattedEntriesScan(entries);
  }

  /** Loading a file written in the documented layout succeeds, returns the
      number of entries, and holds exactly those entries in sorted order. */
  lemma LoadFormattedTable(entries: seq<Entry>)
    requires forall k :: 0 <= k < |entries| ==> ValidName(entries[k].name)
    ensures LoadTable(FormatTable(entries)).Ok?
    ensures LoadTable(FormatTable(entries)).value.count == |entries|
    ensures multiset(LoadTable(FormatTable(entries)).value.table) == multiset(entries)
  {
    FormattedLinesScan(entries);
  }
}
