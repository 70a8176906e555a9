/** core/diff.py, diff_fingerprint: which changes to a diff leave its fingerprint alone. */
module Rebase {
  import opened Text
  import opened DiffParse
  import opened Geometry
  import opened Sections
  import opened Rejoin
  import opened HunkLookup
  import opened Fingerprint

  /** The diff's lines but for those that name blob ids. */
  function WithoutIds(lines: seq<string>): seq<string> {
    if lines == [] then []
    else (if "index " <= lines[0] then [] else [lines[0]]) + WithoutIds(lines[1..])
  }

  /** The same line, or two hunk headers that differ in their ranges alone. */
  predicate SameButRanges(x: string, y: string) {
    x == y || (&& ParseHunkHeader(x).Some? && ParseHunkHeader(y).Some?
               && ParseHunkHeader(x).value.section == ParseHunkHeader(y).value.section)
  }

  /** Line by line the same, but for blob ids and hunk ranges. */
  predicate Rebased(a: seq<string>, b: seq<string>) {
    var x, y := WithoutIds(a), WithoutIds(b);
    |x| == |y| && forall i :: 0 <= i < |x| ==> SameButRanges(x[i], y[i])
  }

  predicate MarksParse(lines: seq<string>) {
    forall i :: 0 <= i < |lines| && StartsWith(lines[i], "@@") ==> IsHunkHeader(lines[i])
  }

  lemma {:induction false} SameNormal(x: string, y: string)
    ensures SameButRanges(x, y) ==> Normal(x) == Normal(y)
    ensures (StartsWith(x, "@@") ==> IsHunkHeader(x)) && (StartsWith(y, "@@") ==> IsHunkHeader(y)) && Normal(x) == Normal(y) ==>
      SameButRanges(x, y)
  {
    hide ParseHunkHeader;
    var n := Normal(x);
    if IsHunkHeader(x) {
      assert n[..2] == "@@" && n[2..] == ParseHunkHeader(x).value.section;
    }
    if IsHunkHeader(y) {
      assert Normal(y)[..2] == "@@" && Normal(y)[2..] == ParseHunkHeader(y).value.section;
    }
  }

  function Normals(lines: seq<string>): (r: seq<string>)
    ensures |r| == |lines| && forall i :: 0 <= i < |r| ==> r[i] == Normal(lines[i])
  {
    if lines == [] then [] else [Normal(lines[0])] + Normals(lines[1..])
  }

  lemma {:induction false} KeptIsNormals(lines: seq<string>)
    ensures Kept(lines) == Normals(WithoutIds(lines))
  {
    hide Normal;
    if lines != [] {
      KeptIsNormals(lines[1..]);
      var rest := WithoutIds(lines[1..]);
      if !IsIndexLine(lines[0]) {
        assert ([lines[0]] + rest)[1..] == rest;
      } else {
        assert [] + rest == rest;
      }
    }
  }

  lemma {:induction false} WithoutIdsParse(lines: seq<string>)
    requires MarksParse(lines)
    ensures MarksParse(WithoutIds(lines))
  {
    hide ParseHunkHeader, StartsWith;
    if lines != [] {
      assert forall i :: 0 <= i < |lines[1..]| ==> lines[1..][i] == lines[i + 1];
      WithoutIdsParse(lines[1..]);
    }
  }

  lemma {:induction false} SameKept(a: seq<string>, b: seq<string>)
    requires MarksParse(a) && MarksParse(b)
    ensures Kept(a) == Kept(b) <==> Rebased(a, b)
  {
    KeptIsNormals(a);
    KeptIsNormals(b);
    WithoutIdsParse(a);
    WithoutIdsParse(b);
    hide Kept, Normal, SameButRanges, WithoutIds, ParseHunkHeader, StartsWith;
    var x, y := WithoutIds(a), WithoutIds(b);
    if |x| == |y| {
      forall i | 0 <= i < |x| ensures Normal(x[i]) == Normal(y[i]) <==> SameButRanges(x[i], y[i]) {
        SameNormal(x[i], y[i]);
      }
      assert Kept(a) == Kept(b) ==> forall i :: 0 <= i < |x| ==> Kept(a)[i] == Kept(b)[i];
    }
  }

  lemma {:induction false} TidyMarks(lines: seq<string>, c: Cursor)
    requires Tidy(lines, c)
    ensures MarksParse(lines)
    decreases |lines|
  {
    hide Step, ParseHunkHeader, IsIndexLine, StartsWith;
    if lines != [] {
      TidyMarks(lines[1..], Step(c, lines[0]));
      assert forall i :: 1 <= i < |lines| ==> lines[i] == lines[1..][i - 1];
    }
  }

  lemma {:induction false} SplitMarks(diff: string)
    requires MarksParse(Lines(diff))
    ensures MarksParse(Split(diff))
  {
    hide ParseHunkHeader;
    if EndsWithNewline(diff) {
      SplitConcat(RemoveSuffix(diff), "");
      assert diff == RemoveSuffix(diff) + [NEWLINE] + "";
      assert Split("") == [""];
      assert Split(diff) == Lines(diff) + [""];
      NotPrefix("", "@@");
    }
  }

  /** Two well-formed diffs hash the same text exactly when, blob id lines aside, they are the same line by line but
      for the ranges of their hunk headers: a rebase that only moves a change keeps its fingerprint, and nothing else
      does unless the hash collides. */
  lemma {:induction false} FingerprintExactly(a: string, b: string, hash: string -> string)
    requires WellFormedDiff(a) && WellFormedDiff(b)
    ensures Rebased(Split(a), Split(b)) ==> DiffFingerprint(a, hash) == DiffFingerprint(b, hash)
    ensures DiffFingerprint(a, hash) == DiffFingerprint(b, hash) ==> Rebased(Split(a), Split(b)) || Collide(hash, Hashed(a), Hashed(b))
  {
    hide WellFormedDiff, Tidy, Kept, Rebased, Split, MarksParse;
    WellFormedIsTidy(a);
    WellFormedIsTidy(b);
    TidyMarks(Lines(a), START);
    TidyMarks(Lines(b), START);
    SplitMarks(a);
    SplitMarks(b);
    SameKept(Split(a), Split(b));
    assert AllSingle(Split(a)) && AllSingle(Split(b));
    KeptSingle(Split(a));
    KeptSingle(Split(b));
    SplitJoin(Kept(Split(a)));
    SplitJoin(Kept(Split(b)));
  }
}
