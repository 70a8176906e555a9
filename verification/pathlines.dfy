/** core/diffparse.py: exactly which lines are hunk headers, what a path line names, and what a section without one
    is called. */
module PathLines {
  import opened Text
  import opened Numerals
  import opened DiffParse
  import opened Geometry
  import opened Sections
  import opened HunkLookup

  // ----- Hunk headers -----

  predicate IsNumeral(s: string, n: nat) {
    s != "" && AllDigits(s) && Value(s) == n
  }

  /** A start alone, for one line, or a start and a length. */
  predicate IsRange(s: string, start: nat, len: nat) {
    || (IsNumeral(s, start) && len == 1)
    || (exists k :: 0 <= k < |s| && s[k] == ',' && IsNumeral(s[..k], start) && IsNumeral(s[k + 1..], len))
  }

  /** @@ -range +range @@, and anything after it. */
  predicate IsHeaderOf(line: string, older: string, newer: string, h: HunkHeader) {
    && IsRange(older, h.oldStart, h.oldLen) && IsRange(newer, h.newStart, h.newLen)
    && line == "@@ -" + (older + (" +" + (newer + (" @@" + h.section))))
  }

  lemma {:induction false} ScanNumeral(s: string, n: nat, rest: string)
    requires IsNumeral(s, n) && (rest == "" || !IsDigit(rest[0]))
    ensures ScanNat(s + rest) == Some(Scanned(n, rest))
  {
    DigitRunOf(s, rest);
    assert (s + rest)[..|s|] == s && (s + rest)[|s|..] == rest;
  }

  lemma {:induction false} NumeralScanned(s: string) returns (t: string)
    requires ScanNat(s).Some?
    ensures s == t + ScanNat(s).value.rest && IsNumeral(t, ScanNat(s).value.value)
  {
    t := s[..DigitRun(s)];
  }

  lemma {:induction false} ScanIsRange(t: string, start: nat, len: nat, rest: string)
    requires IsRange(t, start, len) && rest != "" && rest[0] == ' '
    ensures ScanRange(t + rest) == Some(Scanned((start, len), rest))
  {
    hide ScanNat, IsNumeral;
    if IsNumeral(t, start) && len == 1 {
      ScanNumeral(t, start, rest);
      NotPrefix(rest, ",");
    } else {
      var k :| 0 <= k < |t| && t[k] == ',' && IsNumeral(t[..k], start) && IsNumeral(t[k + 1..], len);
      var tail := "," + (t[k + 1..] + rest);
      assert t + rest == t[..k] + tail;
      ScanNumeral(t[..k], start, tail);
      assert tail[1..] == t[k + 1..] + rest && tail[..1] == ",";
      ScanNumeral(t[k + 1..], len, rest);
    }
  }

  lemma {:induction false} ScannedIsRange(s: string) returns (t: string)
    requires ScanRange(s).Some?
    ensures var r := ScanRange(s).value; s == t + r.rest && IsRange(t, r.value.0, r.value.1)
  {
    hide ScanNat, IsNumeral, IsRange;
    var a := NumeralScanned(s);
    var after := ScanNat(s).value.rest;
    if StartsWith(after, ",") && ScanNat(after[1..]).Some? {
      var b := NumeralScanned(after[1..]);
      t := a + ("," + b);
      assert after == "," + after[1..];
      Joined(a, b, ScanNat(after[1..]).value.rest);
      TwoNumerals(a, b, ScanNat(s).value.value, ScanNat(after[1..]).value.value);
    } else {
      t := a;
      OneNumeral(t, ScanNat(s).value.value);
    }
  }

  lemma {:induction false} Joined(a: string, b: string, rest: string)
    ensures a + ("," + (b + rest)) == a + ("," + b) + rest
  {
  }

  lemma {:induction false} OneNumeral(a: string, start: nat)
    requires IsNumeral(a, start)
    ensures IsRange(a, start, 1)
  {
  }

  lemma {:induction false} TwoNumerals(a: string, b: string, start: nat, len: nat)
    requires IsNumeral(a, start) && IsNumeral(b, len)
    ensures IsRange(a + ("," + b), start, len)
  {
    hide IsNumeral;
    var s := a + ("," + b);
    assert s[|a|] == ',' && s[..|a|] == a && s[|a| + 1..] == b;
  }

  /** A line is a hunk header with these numbers and section exactly when it is spelt as one. */
  lemma {:induction false} HeaderGrammar(line: string, h: HunkHeader)
    ensures ParseHunkHeader(line) == Some(h) <==> exists older, newer :: IsHeaderOf(line, older, newer, h)
  {
    hide ScanRange, IsRange;
    if ParseHunkHeader(line) == Some(h) {
      var older := ScannedIsRange(line[4..]);
      var rest := ScanRange(line[4..]).value.rest;
      var newer := ScannedIsRange(rest[2..]);
      var rest' := ScanRange(rest[2..]).value.rest;
      assert line == "@@ -" + line[4..] && rest == " +" + rest[2..] && rest' == " @@" + rest'[3..];
      assert IsHeaderOf(line, older, newer, h);
    }
    if older, newer :| IsHeaderOf(line, older, newer, h) {
      var tail := " @@" + h.section;
      var mid := " +" + (newer + tail);
      assert line[..4] == "@@ -" && line[4..] == older + mid;
      ScanIsRange(older, h.oldStart, h.oldLen, mid);
      assert mid[..2] == " +" && mid[2..] == newer + tail;
      ScanIsRange(newer, h.newStart, h.newLen, tail);
      assert tail[..3] == " @@" && tail[3..] == h.section;
    }
  }

  // ----- Path lines -----

  lemma {:induction false} TabEnds(path: string, stamp: string, from: nat)
    requires '\t' !in path && from <= |path|
    ensures FirstTab(path + stamp, from) == if stamp == "" || stamp[0] == '\t' then |path| else FirstTab(path + stamp, |path|)
    decreases |path| - from
  {
    if from < |path| {
      assert (path + stamp)[from] in path;
      TabEnds(path, stamp, from + 1);
    }
  }

  /** A path line names the path it is written with, a tab and whatever follows it left out. */
  lemma {:induction false} PathLineNames(path: string, stamp: string)
    requires path != "" && '\t' !in path && (stamp == "" || stamp[0] == '\t')
    ensures OldPath("--- a/" + (path + stamp)) == Some(path) && NewPath("+++ b/" + (path + stamp)) == Some(path)
  {
    hide FirstTab;
    var older, newer := "--- a/" + (path + stamp), "+++ b/" + (path + stamp);
    assert older[..6] == "--- a/" && older[6..] == path + stamp;
    assert newer[..6] == "+++ b/" && newer[6..] == path + stamp;
    TabEnds(path, stamp, 1);
    assert (path + stamp)[..|path|] == path;
  }

  // ----- Sections that name no path -----

  lemma {:induction false} NamedAt(sections: seq<seq<string>>, texts: seq<string>, changed: seq<string>, i: nat, k: nat)
    requires |texts| == |sections| && k < |sections|
    ensures |Name(sections, texts, changed, i)| == |sections|
    ensures Name(sections, texts, changed, i)[k] == (SectionPath(sections[k], NameAt(changed, i + k)), texts[k])
    decreases |sections|
  {
    hide SectionPath, NameAt;
    if |sections| > 1 {
      NamedAt(sections[1..], texts[1..], changed, i + 1, if k > 0 then k - 1 else 0);
    }
  }

  /** Patch k of a split diff is called after the path its lines give, or after the kth changed file, or "unknown";
      a diff with no file header is one patch called after the first. */
  lemma {:induction false} PatchIsCalled(diff: string, changed: seq<string>, k: nat)
    requires k < |Cut(Lines(diff)).sections| || (k == 0 && Cut(Lines(diff)).sections == [])
    ensures var sections, split := Cut(Lines(diff)).sections, SplitByFile(diff, changed);
      && |split| == (if sections == [] then 1 else |sections|)
      && split[k].0 == (if sections != [] && FoundPath(sections[k]).Some? then FoundPath(sections[k]).value
                        else if k < |changed| then changed[k] else "unknown")
      && (sections == [] ==> split[0].1 == diff)
  {
    hide NewPath, OldPath, RenameTo, FallbackPath, SectionTexts, Cut, Lines;
    var sections := Cut(Lines(diff)).sections;
    if sections != [] {
      NamedAt(sections, SectionTexts(sections, EndsWithNewline(diff)), changed, 0, k);
    }
  }
}
