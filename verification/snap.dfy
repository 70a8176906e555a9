/** engine/engine.py, _snap_findings: re-anchoring a finding on the changed line it quotes. */
module Snap {
  import opened Text
  import opened DiffParse
  import opened ChangeIndex
  import opened Findings

  // ----- Whitespace, as str.strip() and str.split() see it -----

  predicate IsSpace(c: char) {
    || c == ' ' || '\t' <= c <= '\r' || '\U{1c}' <= c <= '\U{1f}' || c == '\U{85}' || c == '\U{a0}'
    || c == '\U{1680}' || '\U{2000}' <= c <= '\U{200a}' || c == '\U{2028}' || c == '\U{2029}'
    || c == '\U{202f}' || c == '\U{205f}' || c == '\U{3000}'
  }

  function StripLeft(s: string): string {
    if s != "" && IsSpace(s[0]) then StripLeft(s[1..]) else s
  }

  lemma {:induction false} StripLeftShorter(s: string)
    ensures |StripLeft(s)| <= |s|
  {
    if s != "" && IsSpace(s[0]) {
      StripLeftShorter(s[1..]);
    }
  }

  function StripRight(s: string): string {
    if s != "" && IsSpace(s[|s| - 1]) then StripRight(s[..|s| - 1]) else s
  }

  function Strip(s: string): string {
    StripRight(StripLeft(s))
  }

  /** How many leading characters are not whitespace. */
  function WordLength(s: string): (k: nat)
    ensures k <= |s|
    ensures s != "" && !IsSpace(s[0]) ==> k > 0
  {
    if s == "" || IsSpace(s[0]) then 0 else 1 + WordLength(s[1..])
  }

  function Words(s: string): seq<string>
    decreases |s|
  {
    if s == "" then []
    else if IsSpace(s[0]) then Words(s[1..])
    else [s[..WordLength(s)]] + Words(s[WordLength(s)..])
  }

  function JoinSpace(words: seq<string>): string {
    if |words| == 0 then "" else if |words| == 1 then words[0] else words[0] + " " + JoinSpace(words[1..])
  }

  /** " ".join(text.split()) */
  function Normalise(s: string): string {
    JoinSpace(Words(s))
  }

  /** needle in text */
  predicate Contains(text: string, needle: string) {
    needle <= text || (text != "" && Contains(text[1..], needle))
  }

  // ----- Candidates and their three levels -----

  const MIN_SUBSTRING_ANCHOR := 8

  datatype Candidate = Candidate(line: nat, text: string, stripped: string, normal: string)

  type Candidates = map<(string, Side), seq<Candidate>>

  function Prepared(lines: seq<(nat, string)>): seq<Candidate> {
    if lines == [] then []
    else [Candidate(lines[0].0, lines[0].1, Strip(lines[0].1), Normalise(lines[0].1))] + Prepared(lines[1..])
  }

  /** _prepare_candidates */
  function Prepare(index: LineIndex): Candidates {
    map k | k in index :: Prepared(index[k])
  }

  datatype Level = Exact | Normalised | Substring

  /** How a candidate can answer an anchor. */
  predicate Answers(level: Level, anchor: string, c: Candidate) {
    var target := Strip(anchor);
    match level
    case Exact => c.stripped == target
    case Normalised => c.normal == Normalise(target)
    case Substring =>
      Contains(c.text, target) || (|c.stripped| >= MIN_SUBSTRING_ANCHOR && Contains(target, c.stripped))
  }

  function Hits(level: Level, anchor: string, candidates: seq<Candidate>): seq<nat> {
    if candidates == [] then []
    else (if Answers(level, anchor, candidates[0]) then [candidates[0].line] else [])
         + Hits(level, anchor, candidates[1..])
  }

  /** _match_anchor: the loosest level is only tried when the stricter ones hit nothing. */
  function MatchAnchor(anchor: string, candidates: seq<Candidate>): seq<nat> {
    if Hits(Exact, anchor, candidates) != [] then Hits(Exact, anchor, candidates)
    else if Hits(Normalised, anchor, candidates) != [] then Hits(Normalised, anchor, candidates)
    else if |Strip(anchor)| >= MIN_SUBSTRING_ANCHOR && |Hits(Substring, anchor, candidates)| == 1
      then Hits(Substring, anchor, candidates)
    else []
  }

  function Distance(a: nat, b: nat): nat {
    if a < b then b - a else a - b
  }

  /** min(matches, key=distance): the first of the nearest. */
  function Nearest(matches: seq<nat>, line: nat): nat
    requires matches != []
  {
    if |matches| == 1 then matches[0]
    else
      var rest := Nearest(matches[1..], line);
      if Distance(matches[0], line) <= Distance(rest, line) then matches[0] else rest
  }

  predicate Blank(anchor: Option<string>) {
    anchor.None? || Strip(anchor.value) == ""
  }

  /** _snap_one */
  function SnapOne(f: Finding, index: Candidates): Finding {
    if Blank(f.anchor) then f
    else
      var key := (f.path, f.side);
      var matches := MatchAnchor(f.anchor.value, if key in index then index[key] else []);
      if matches == [] then f.(anchored := false)
      else if f.line in matches then f
      else f.(line := Nearest(matches, f.line))
  }

  /** _snap_findings */
  method SnapFindings(findings: seq<Finding>, diff: string) returns (snapped: seq<Finding>)
    ensures |snapped| == |findings|
    ensures forall i :: 0 <= i < |findings| ==>
      snapped[i] == SnapOne(findings[i], Prepare(Index(Changes(Entries(diff)))))
  {
    hide SnapOne, Prepare, Index, Changes, Entries;
    var index := ChangedLineIndex(diff);
    var candidates := Prepare(index);
    snapped := [];
    for i := 0 to |findings|
      invariant |snapped| == i
      invariant forall j :: 0 <= j < i ==> snapped[j] == SnapOne(findings[j], candidates)
    {
      snapped := snapped + [SnapOne(findings[i], candidates)];
    }
  }

  // ----- What a snap guarantees -----

  lemma {:induction false} HitsAnswer(level: Level, anchor: string, candidates: seq<Candidate>, line: nat)
    ensures line in Hits(level, anchor, candidates)
       <==> exists c :: c in candidates && c.line == line && Answers(level, anchor, c)
  {
    hide Answers;
    if candidates != [] {
      var c, rest := candidates[0], candidates[1..];
      HitsAnswer(level, anchor, rest, line);
      assert forall d :: d in candidates <==> d == c || d in rest;
    }
  }

  lemma {:induction false} NearestIsNearest(matches: seq<nat>, line: nat)
    requires matches != []
    ensures Nearest(matches, line) in matches
    ensures forall m :: m in matches ==> Distance(Nearest(matches, line), line) <= Distance(m, line)
  {
    if |matches| > 1 {
      NearestIsNearest(matches[1..], line);
      assert forall m :: m in matches <==> m == matches[0] || m in matches[1..];
    }
  }

  lemma {:induction false} PreparedFrom(lines: seq<(nat, string)>, c: Candidate)
    ensures c in Prepared(lines)
       <==> c.stripped == Strip(c.text) && c.normal == Normalise(c.text) && (c.line, c.text) in lines
  {
    hide Strip, Normalise;
    if lines != [] {
      PreparedFrom(lines[1..], c);
      assert forall p :: p in lines <==> p == lines[0] || p in lines[1..];
    }
  }

  predicate AnswersChange(level: Level, anchor: string, c: Change) {
    Answers(level, anchor, Candidate(c.line, c.text, Strip(c.text), Normalise(c.text)))
  }

  /** Some changed line of the finding's path and side, at that line, answers its quote. */
  ghost predicate Target(level: Level, f: Finding, cs: seq<Change>, line: nat)
    requires f.anchor.Some?
  {
    exists text :: Change(f.path, f.side, line, text) in cs && AnswersChange(level, f.anchor.value, Change(f.path, f.side, line, text))
  }

  /** The line answers at a level nothing stricter answers at, and no line answering there is nearer
      to where the model put the finding. */
  ghost predicate Chosen(level: Level, f: Finding, cs: seq<Change>, line: nat)
    requires f.anchor.Some?
  {
    && Target(level, f, cs, line)
    && (forall l :: Target(level, f, cs, l) ==> Distance(line, f.line) <= Distance(l, f.line))
    && (level != Exact ==> forall l :: !Target(Exact, f, cs, l))
    && (level == Substring ==> forall l :: !Target(Normalised, f, cs, l))
  }

  lemma {:induction false} HitsAreTargets(level: Level, f: Finding, cs: seq<Change>, line: nat)
    requires f.anchor.Some?
    ensures line in Hits(level, f.anchor.value, Prepared(LinesAt(cs, f.path, f.side))) <==> Target(level, f, cs, line)
  {
    hide Answers, Strip, Normalise;
    var candidates := Prepared(LinesAt(cs, f.path, f.side));
    HitsAnswer(level, f.anchor.value, candidates, line);
    LinesAtAreChanges(cs, f.path, f.side);
    if line in Hits(level, f.anchor.value, candidates) {
      var c :| c in candidates && c.line == line && Answers(level, f.anchor.value, c);
      PreparedFrom(LinesAt(cs, f.path, f.side), c);
      assert Change(f.path, f.side, line, c.text) in cs;
    }
    if Target(level, f, cs, line) {
      var text :| Change(f.path, f.side, line, text) in cs && AnswersChange(level, f.anchor.value, Change(f.path, f.side, line, text));
      var c := Candidate(line, text, Strip(text), Normalise(text));
      PreparedFrom(LinesAt(cs, f.path, f.side), c);
      assert c in candidates;
    }
  }

  lemma {:induction false} IndexedCandidates(cs: seq<Change>, f: Finding)
    ensures var index, key := Prepare(Index(cs)), (f.path, f.side);
      (if key in index then index[key] else []) == Prepared(LinesAt(cs, f.path, f.side))
  {
    if LinesAt(cs, f.path, f.side) != [] {
      LinesAtHasKey(cs, f.path, f.side);
    }
  }

  /** A finding with a quoted line that stays anchored stands on a changed line of its path and side
      that answers the quote, at the strictest level any changed line there answers at, and no other
      such line is nearer to where the model put it. One that nothing answers is marked unanchored
      and its line left alone. */
  lemma {:induction false} SnapIsSound(f: Finding, cs: seq<Change>)
    requires !Blank(f.anchor)
    ensures var f' := SnapOne(f, Prepare(Index(cs)));
      && f' == f.(line := f'.line, anchored := f'.anchored)
      && (f.anchored && f'.anchored ==> exists level :: Chosen(level, f, cs, f'.line))
      && (f.anchored && !f'.anchored ==> f'.line == f.line && forall l :: !Target(Exact, f, cs, l) && !Target(Normalised, f, cs, l))
  {
    hide Target, Hits, Strip, Index, Prepare, LinesAt, Prepared;
    var anchor := f.anchor.value;
    var candidates := Prepared(LinesAt(cs, f.path, f.side));
    IndexedCandidates(cs, f);
    forall level, l: nat ensures l in Hits(level, anchor, candidates) <==> Target(level, f, cs, l) {
      HitsAreTargets(level, f, cs, l);
    }
    var matches := MatchAnchor(anchor, candidates);
    if matches != [] {
      NearestIsNearest(matches, f.line);
      var level := if Hits(Exact, anchor, candidates) != [] then Exact
                   else if Hits(Normalised, anchor, candidates) != [] then Normalised else Substring;
      assert matches == Hits(level, anchor, candidates);
      assert Chosen(level, f, cs, SnapOne(f, Prepare(Index(cs))).line);
    }
  }
}
