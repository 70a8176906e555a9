/** core/diffparse.py: reading a unified diff. Every line number the pipeline uses comes from here. */
module DiffParse {
  import opened Text
  import opened Numerals

  datatype Option<+T> = None | Some(value: T) {
    function GetOr(default: T): T {
      if Some? then value else default
    }
  }

  // ----- Hunk headers: "@@ -old_start[,old_len] +new_start[,new_len] @@[ section]" -----

  datatype HunkHeader = HunkHeader(oldStart: nat, oldLen: nat, newStart: nat, newLen: nat, section: string)

  /** A scanned value and what is left of the line after it. */
  datatype Scanned<T> = Scanned(value: T, rest: string)

  /** \d+ */
  function ScanNat(s: string): Option<Scanned<nat>> {
    var k := DigitRun(s);
    if k == 0 then None else Some(Scanned(Value(s[..k]), s[k..]))
  }

  /** \d+(?:,\d+)? with a length of 1 when none is written. */
  function ScanRange(s: string): Option<Scanned<(nat, nat)>> {
    match ScanNat(s)
    case None => None
    case Some(Scanned(start, rest)) =>
      if StartsWith(rest, ",") then
        match ScanNat(rest[1..])
        case None => Some(Scanned((start, 1), rest))
        case Some(Scanned(len, rest')) => Some(Scanned((start, len), rest'))
      else Some(Scanned((start, 1), rest))
  }

  function ParseHunkHeader(line: string): Option<HunkHeader> {
    if !StartsWith(line, "@@ -") then None else
    match ScanRange(line[4..])
    case None => None
    case Some(Scanned(oldRange, rest)) =>
      if !StartsWith(rest, " +") then None else
      match ScanRange(rest[2..])
      case None => None
      case Some(Scanned(newRange, rest')) =>
        if !StartsWith(rest', " @@") then None else
        Some(HunkHeader(oldRange.0, oldRange.1, newRange.0, newRange.1, rest'[3..]))
  }

  predicate IsHunkHeader(line: string) {
    ParseHunkHeader(line).Some?
  }

  function PrintRange(start: nat, len: nat): string {
    Decimal(start) + "," + Decimal(len)
  }

  function PrintHunkHeader(h: HunkHeader): string {
    "@@ -" + PrintRange(h.oldStart, h.oldLen) + " +" + PrintRange(h.newStart, h.newLen) + " @@" + h.section
  }

  lemma {:induction false} ScanDecimal(n: nat, rest: string)
    requires rest == "" || !IsDigit(rest[0])
    ensures ScanNat(Decimal(n) + rest) == Some(Scanned(n, rest))
  {
    var s := Decimal(n) + rest;
    DigitRunOf(Decimal(n), rest);
    assert s[..|Decimal(n)|] == Decimal(n) && s[|Decimal(n)|..] == rest;
    ValueOfDecimal(n);
  }

  lemma {:induction false} ScanPrintedRange(start: nat, len: nat, rest: string)
    requires rest == "" || !IsDigit(rest[0])
    ensures ScanRange(PrintRange(start, len) + rest) == Some(Scanned((start, len), rest))
  {
    var tail := "," + (Decimal(len) + rest);
    assert PrintRange(start, len) + rest == Decimal(start) + tail;
    assert tail[0] == ',';
    ScanDecimal(start, tail);
    assert tail[1..] == Decimal(len) + rest;
    ScanDecimal(len, rest);
  }

  /** A range as git may write it: the length left out when it is 1. */
  function SpellRange(start: nat, len: nat, short: bool): string {
    if short && len == 1 then Decimal(start) else PrintRange(start, len)
  }

  function SpellHeader(h: HunkHeader, shortOld: bool, shortNew: bool): string {
    "@@ -" + SpellRange(h.oldStart, h.oldLen, shortOld) + " +" + SpellRange(h.newStart, h.newLen, shortNew) + " @@" + h.section
  }

  lemma {:induction false} ScanSpeltRange(start: nat, len: nat, short: bool, rest: string)
    requires rest != "" && !IsDigit(rest[0]) && rest[0] != ','
    ensures ScanRange(SpellRange(start, len, short) + rest) == Some(Scanned((start, len), rest))
  {
    if short && len == 1 {
      ScanDecimal(start, rest);
      NotPrefix(rest, ",");
    } else {
      ScanPrintedRange(start, len, rest);
    }
  }

  /** However a header's lengths of 1 are written, it reads back as the same numbers and section. */
  lemma {:induction false} HunkHeaderRoundTrip(h: HunkHeader, shortOld: bool, shortNew: bool)
    ensures ParseHunkHeader(SpellHeader(h, shortOld, shortNew)) == Some(h)
  {
    hide ScanRange, SpellRange;
    var line := SpellHeader(h, shortOld, shortNew);
    var older, newer := SpellRange(h.oldStart, h.oldLen, shortOld), SpellRange(h.newStart, h.newLen, shortNew);
    var tail := " @@" + h.section;
    var mid := " +" + (newer + tail);
    assert line == "@@ -" + (older + mid);
    assert line[4..] == older + mid;
    ScanSpeltRange(h.oldStart, h.oldLen, shortOld, mid);
    assert mid[2..] == newer + tail;
    ScanSpeltRange(h.newStart, h.newLen, shortNew, tail);
    assert tail[3..] == h.section;
  }

  /** The program's own headers write both lengths. */
  lemma {:induction false} PrintedHeaderParses(h: HunkHeader)
    ensures ParseHunkHeader(PrintHunkHeader(h)) == Some(h)
  {
    HunkHeaderRoundTrip(h, false, false);
    assert SpellHeader(h, false, false) == PrintHunkHeader(h);
  }

  // ----- File headers -----

  /** ^diff --git .+$ */
  predicate IsFileHeader(line: string) {
    StartsWith(line, "diff --git ") && |line| > 11
  }

  /** Where a tab first appears in s at or after index from; |s| when there is none. */
  function FirstTab(s: string, from: nat): (k: nat)
    requires from <= |s|
    ensures from <= k <= |s|
    decreases |s| - from
  {
    if from == |s| || s[from] == '\t' then from else FirstTab(s, from + 1)
  }

  /** (.+?)(?:\t.*)?$ : at least one character, then up to a timestamp's tab. */
  function PathBeforeTab(s: string): Option<string> {
    if s == "" then None else Some(s[..FirstTab(s, 1)])
  }

  /** ^--- a/(.+?)(?:\t.*)?$ */
  function OldPath(line: string): Option<string> {
    if StartsWith(line, "--- a/") then PathBeforeTab(line[6..]) else None
  }

  /** ^\+\+\+ b/(.+?)(?:\t.*)?$ */
  function NewPath(line: string): Option<string> {
    if StartsWith(line, "+++ b/") then PathBeforeTab(line[6..]) else None
  }

  /** ^rename to (.+)$ */
  function RenameTo(line: string): Option<string> {
    if StartsWith(line, "rename to ") && |line| > 10 then Some(line[10..]) else None
  }

  /** The greedy .+ of " b/(.+)$": the last " b/" of s with something on both sides. */
  function AfterLastB(s: string, k: nat): Option<string>
    requires k <= |s|
  {
    if k == 0 then None
    else if StartsWith(s[k..], " b/") && |s| > k + 3 then Some(s[k + 3..])
    else AfterLastB(s, k - 1)
  }

  /** ^diff --git a/.+ b/(.+)$ */
  function FallbackPath(line: string): Option<string> {
    if StartsWith(line, "diff --git a/") then AfterLastB(line[13..], |line| - 13) else None
  }

  // ----- The walk -----

  datatype Kind = Deleted | Added | Context

  /** One in-hunk line: its marker stripped, and its number on each side at that point. */
  datatype Entry = Entry(path: string, kind: Kind, oldLine: nat, newLine: nat, text: string)

  /** What the walk carries from line to line. */
  datatype Cursor = Cursor(file: Option<string>, oldLine: nat, newLine: nat, inHunk: bool)

  const START := Cursor(None, 0, 0, false)

  function Step(c: Cursor, line: string): Cursor {
    if IsFileHeader(line) then c.(file := FallbackPath(line), inHunk := false)
    else if !c.inHunk && OldPath(line).Some? then c.(file := OldPath(line))
    else if !c.inHunk && NewPath(line).Some? then c.(file := NewPath(line))
    else if c.file.None? then c
    else match ParseHunkHeader(line)
      case Some(h) => Cursor(c.file, h.oldStart, h.newStart, true)
      case None =>
        if !c.inHunk || StartsWith(line, "\\") then c
        else if StartsWith(line, "-") then c.(oldLine := c.oldLine + 1)
        else if StartsWith(line, "+") then c.(newLine := c.newLine + 1)
        else c.(oldLine := c.oldLine + 1, newLine := c.newLine + 1)
  }

  /** The line without its first character, as raw_line[1:] leaves it. */
  function Unmarked(line: string): string {
    if line == "" then "" else line[1..]
  }

  function LineKind(line: string): Kind {
    if StartsWith(line, "-") then Deleted else if StartsWith(line, "+") then Added else Context
  }

  /** The entry a line yields: none outside a hunk, for a header, or for a "\ No newline" marker. */
  function Emit(c: Cursor, line: string): seq<Entry> {
    if IsFileHeader(line) || !c.inHunk || c.file.None? || IsHunkHeader(line) || StartsWith(line, "\\") then []
    else [Entry(c.file.value, LineKind(line), c.oldLine, c.newLine, Unmarked(line))]
  }

  function Walk(lines: seq<string>, c: Cursor): seq<Entry> {
    if lines == [] then [] else Emit(c, lines[0]) + Walk(lines[1..], Step(c, lines[0]))
  }

  function After(lines: seq<string>, c: Cursor): Cursor {
    if lines == [] then c else After(lines[1..], Step(c, lines[0]))
  }

  /** walk_diff */
  function Entries(diff: string): seq<Entry> {
    Walk(Lines(diff), START)
  }

  lemma {:induction false} WalkConcat(a: seq<string>, b: seq<string>, c: Cursor)
    ensures Walk(a + b, c) == Walk(a, c) + Walk(b, After(a, c))
    ensures After(a + b, c) == After(b, After(a, c))
  {
    if a == [] {
      assert a + b == b;
    } else {
      assert (a + b)[1..] == a[1..] + b;
      WalkConcat(a[1..], b, Step(c, a[0]));
    }
  }

  /** The walk as the source runs it: four variables updated line by line. */
  method WalkDiff(diff: string) returns (entries: seq<Entry>)
    ensures entries == Entries(diff)
  {
    entries := [];
    var file: Option<string> := None;
    var newLine, oldLine: nat := 0, 0;
    var inHunk := false;
    var lines := Lines(diff);
    for i := 0 to |lines|
      invariant Entries(diff) == entries + Walk(lines[i..], Cursor(file, oldLine, newLine, inHunk))
    {
      var line := lines[i];
      ghost var before, c := entries, Cursor(file, oldLine, newLine, inHunk);
      if IsFileHeader(line) {
        file, inHunk := FallbackPath(line), false;
      } else if !inHunk && OldPath(line).Some? {
        file := OldPath(line);
      } else if !inHunk && NewPath(line).Some? {
        file := NewPath(line);
      } else if file.Some? {
        var hunk := ParseHunkHeader(line);
        if hunk.Some? {
          newLine, oldLine, inHunk := hunk.value.newStart, hunk.value.oldStart, true;
        } else if inHunk && !StartsWith(line, "\\") {
          entries := entries + [Entry(file.value, LineKind(line), oldLine, newLine, Unmarked(line))];
          if StartsWith(line, "-") {
            oldLine := oldLine + 1;
          } else if StartsWith(line, "+") {
            newLine := newLine + 1;
          } else {
            newLine, oldLine := newLine + 1, oldLine + 1;
          }
        }
      }
      WalkNext(lines, i, c, before);
      assert Cursor(file, oldLine, newLine, inHunk) == Step(c, line);
      assert entries == before + Emit(c, line);
    }
  }

  lemma {:induction false} WalkNext(lines: seq<string>, i: nat, c: Cursor, before: seq<Entry>)
    requires i < |lines|
    ensures before + Walk(lines[i..], c) == (before + Emit(c, lines[i])) + Walk(lines[i + 1..], Step(c, lines[i]))
  {
    assert lines[i..][1..] == lines[i + 1..];
  }
}
